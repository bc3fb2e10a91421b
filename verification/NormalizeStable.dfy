/** What one walk keeps: kinds, texts, keys without a fix, and entries that are stable. */
module NormalizeStable {
  import opened Prelude
  import opened YamlTree
  import opened NormalizeSpec

  // ---- what the walk keeps -------------------------------------------------------

  predicate SameKind(a: Tree, b: Tree) {
    && a.Document? == b.Document? && a.Sequence? == b.Sequence? && a.Mapping? == b.Mapping?
    && a.Scalar? == b.Scalar? && a.Alias? == b.Alias?
  }

  /** The walk changes no node's kind or text, and no leaf at all. */
  lemma WalkKeepsKind(t: Tree)
    ensures SameKind(Normalize(t), t) && Text(Normalize(t)) == Text(t)
    ensures t.Scalar? || t.Alias? ==> Normalize(t) == t
  {
  }

  /** No fix turns something that is not a mapping into one. */
  lemma FixMakesNoMapping(e: Entry, isParam: bool)
    requires Fix(e, isParam).Some? && !e.val.Mapping?
    ensures !Fix(e, isParam).value.Mapping?
  {
  }

  /** Every entry comes out of the walk as it went in. */
  predicate Stable(es: seq<Entry>, isParam: bool) {
    es == [] || (StableEntry(es[0], isParam) && Stable(es[1..], isParam))
  }

  predicate StableEntry(e: Entry, isParam: bool) {
    Fix(e, isParam).Some? && Normalize(Fix(e, isParam).value) == e.val
  }

  lemma {:induction false} StableIsFixed(es: seq<Entry>, isParam: bool)
    requires Stable(es, isParam)
    ensures NormalizeEntries(es, isParam) == es
  {
    if es != [] {
      StableIsFixed(es[1..], isParam);
      assert es == [es[0]] + es[1..];
    }
  }

  /** One entry of the walk: dropped, or fixed and walked. */
  lemma WalkHead(es: seq<Entry>, isParam: bool)
    requires es != []
    ensures NormalizeEntries(es, isParam) ==
      (match Fix(es[0], isParam) case None => [] case Some(w) => [Entry(es[0].key, Normalize(w))])
      + NormalizeEntries(es[1..], isParam)
  {
    assert [] + NormalizeEntries(es[1..], isParam) == NormalizeEntries(es[1..], isParam);
  }

  // ---- looking keys up after the walk ----------------------------------------------

  /** A key the walk does not treat specially is found again, with its value walked. */
  lemma {:induction false} PlainKeySurvives(es: seq<Entry>, isParam: bool, key: string)
    requires KeywordOf(key) == Plain
    ensures MapValue(NormalizeEntries(es, isParam), key) ==
      match MapValue(es, key) case None => None case Some(v) => Some(Normalize(v))
  {
    if es != [] {
      WalkHead(es, isParam);
      PlainKeySurvives(es[1..], isParam, key);
      var rest := NormalizeEntries(es[1..], isParam);
      assert [] + rest == rest;
      forall e: Entry ensures ([e] + rest)[1..] == rest {}
    }
  }

  lemma {:induction false} PlainTextSurvives(es: seq<Entry>, isParam: bool, key: string, found: string)
    requires KeywordOf(key) == Plain
    ensures LastText(NormalizeEntries(es, isParam), key, found) == LastText(es, key, found)
  {
    if es != [] {
      WalkHead(es, isParam);
      var rest := NormalizeEntries(es[1..], isParam);
      PlainTextSurvives(es[1..], isParam, key, if Name(es[0]) == key then Text(es[0].val) else found);
      assert [] + rest == rest;
      var w := Fix(es[0], isParam);
      if w.Some? {
        WalkKeepsKind(w.value);
        assert ([Entry(es[0].key, Normalize(w.value))] + rest)[1..] == rest;
      }
    }
  }

  /** Setting `type` does not touch any other key. */
  lemma {:induction false} SetTypeKeepsOthers(es: seq<Entry>, want: string, key: string, found: string)
    requires key != "type"
    ensures MapValue(SetType(es, want), key) == MapValue(es, key)
    ensures LastText(SetType(es, want), key, found) == LastText(es, key, found)
  {
    var out := SetType(es, want);
    if es == [] {
      assert out[1..] == [];
    } else if Name(es[0]) == "type" {
      assert out[1..] == es[1..];
    } else {
      SetTypeKeepsOthers(es[1..], want, key, if Name(es[0]) == key then Text(es[0].val) else found);
      assert out[1..] == SetType(es[1..], want);
    }
  }

  lemma ReconcileKeepsOthers(es: seq<Entry>, key: string, found: string)
    requires key != "type"
    ensures MapValue(Reconcile(es), key) == MapValue(es, key)
    ensures LastText(Reconcile(es), key, found) == LastText(es, key, found)
  {
    var members := DecidingEnum(es);
    if members.Some? { SetTypeKeepsOthers(es, WantedType(members.value), key, found); }
  }

  lemma WalkKeepsKey(es: seq<Entry>, isParam: bool, key: string)
    requires KeywordOf(key) == Plain
    ensures HasKey(Reconcile(NormalizeEntries(es, isParam)), key) == HasKey(es, key)
  {
    ReconcileKeepsOthers(NormalizeEntries(es, isParam), key, "");
    PlainKeySurvives(es, isParam, key);
  }

  /** A parameter object is still one after the walk, and nothing else becomes one. */
  lemma WalkKeepsParam(es: seq<Entry>, isParam: bool)
    ensures IsParam(Reconcile(NormalizeEntries(es, isParam))) == IsParam(es)
  {
    WalkKeepsKey(es, isParam, "in");
    WalkKeepsKey(es, isParam, "name");
  }

  // ---- reconciling twice ---------------------------------------------------------

  /** The first `type` entry is a scalar that says `want`. */
  predicate Typed(es: seq<Entry>, want: string) {
    match MapValue(es, "type") case None => false case Some(t) => t.Scalar? && t.value == want
  }

  lemma {:induction false} SetTypeTypes(es: seq<Entry>, want: string)
    ensures Typed(SetType(es, want), want)
  {
    if es != [] && Name(es[0]) != "type" {
      SetTypeTypes(es[1..], want);
      assert ([es[0]] + SetType(es[1..], want))[1..] == SetType(es[1..], want);
    }
  }

  lemma {:induction false} TypedIsSet(es: seq<Entry>, want: string)
    requires Typed(es, want)
    ensures SetType(es, want) == es
  {
    if Name(es[0]) != "type" {
      TypedIsSet(es[1..], want);
      assert es == [es[0]] + es[1..];
    }
  }

  lemma ReconcileTwice(es: seq<Entry>)
    ensures Reconcile(Reconcile(es)) == Reconcile(es)
  {
    var members := DecidingEnum(es);
    if members.Some? {
      ReconcileKeepsOthers(es, "enum", "");
      SetTypeTypes(es, WantedType(members.value));
      TypedIsSet(Reconcile(es), WantedType(members.value));
    }
  }

  /** A string or integer type entry is untouched by the walk. */
  lemma TypeEntryIsStable(key: Tree, want: string, isParam: bool)
    requires Text(key) == "type" && (want == "integer" || want == "string")
    ensures StableEntry(Entry(key, Str(want)), isParam)
  {
    assert KeywordOf("type") == Type;
    assert ValidType(want) && want != "";
  }

  lemma {:induction false} SetTypeKeepsStable(es: seq<Entry>, want: string, isParam: bool)
    requires Stable(es, isParam) && (want == "integer" || want == "string")
    ensures Stable(SetType(es, want), isParam)
  {
    var out := SetType(es, want);
    if es == [] {
      TypeEntryIsStable(Str("type"), want, isParam);
      assert out[1..] == [];
    } else if Name(es[0]) == "type" {
      TypeEntryIsStable(es[0].key, want, isParam);
      assert out[1..] == es[1..];
      assert out[0] == es[0] || out[0] == Entry(es[0].key, Str(want));
    } else {
      SetTypeKeepsStable(es[1..], want, isParam);
      assert out[1..] == SetType(es[1..], want);
    }
  }

  lemma ReconcileKeepsStable(es: seq<Entry>, isParam: bool)
    requires Stable(es, isParam)
    ensures Stable(Reconcile(es), isParam)
  {
    var members := DecidingEnum(es);
    if members.Some? { SetTypeKeepsStable(es, WantedType(members.value), isParam); }
  }
}
