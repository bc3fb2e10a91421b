/** What holds at every mapping anywhere in the rewrite's output, and what the rewrite leaves alone. */
module NormalizeValid {
  import opened Prelude
  import opened YamlTree
  import opened NormalizeSpec
  import opened NormalizeStable
  import opened NormalizePaths
  import opened NormalizeIdempotent

  predicate Nameable(es: seq<Entry>) {
    es == [] || (HasIdentChar(Name(es[0])) && Nameable(es[1..]))
  }

  /** What the generator needs of an entry, by its key. */
  predicate ValidEntry(e: Entry, isParam: bool) {
    match KeywordOf(Name(e))
    case Type => e.val.Scalar? && ValidType(e.val.value)
    case Required => if isParam then e.val.Scalar? && e.val.tag == "!!bool" else e.val.Sequence?
    case Properties => e.val.Mapping? ==> Nameable(e.val.entries)
    case Enum => !e.val.Scalar? && (e.val.Sequence? ==> AllScalars(e.val.children))
    case Security => e.val.Sequence? ==> ScopesAreLists(e.val.children)
    case Paths => e.val.Mapping? ==> AllComplete(e.val.entries)
    case Plain => true
    case _ => !e.val.Mapping?  // oneOf, anyOf, allOf, tags, additionalProperties
  }

  /** A non-empty scalar enumeration has a first `type` that fits its members. */
  predicate EnumTyped(es: seq<Entry>) {
    match DecidingEnum(es) case None => true case Some(members) => Typed(es, WantedType(members))
  }

  predicate ValidEntries(es: seq<Entry>, isParam: bool) {
    es == [] || (ValidEntry(es[0], isParam) && ValidEntries(es[1..], isParam))
  }

  /** Valid here and at every mapping below. */
  predicate Valid(t: Tree)
    decreases t, 1
  {
    match t
    case Document(cs) => ValidAll(cs)
    case Sequence(_, _, cs) => ValidAll(cs)
    case Mapping(_, _, es) => ValidEntries(es, IsParam(es)) && EnumTyped(es) && ValidBelow(es)
    case _ => true
  }

  predicate ValidAll(cs: seq<Tree>)
    decreases cs, 0
  {
    cs == [] || (Valid(cs[0]) && ValidAll(cs[1..]))
  }

  predicate ValidBelow(es: seq<Entry>)
    decreases es, 0
  {
    es == [] || (ValidVal(es[0]) && ValidBelow(es[1..]))
  }

  predicate ValidVal(e: Entry)
    decreases e, 0
  {
    Valid(e.val)
  }

  // ---- properties keys ---------------------------------------------------------------

  lemma {:induction false} FixPropertiesNames(es: seq<Entry>)
    ensures Nameable(FixPropertyEntries(es))
  {
    if es != [] {
      FixPropertiesNames(es[1..]);
      var rest := FixPropertyEntries(es[1..]);
      if HasIdentChar(Name(es[0])) {
        assert FixPropertyEntries(es)[1..] == rest;
      } else {
        assert FixPropertyEntries(es) == rest;
      }
    }
  }

  lemma {:induction false} NamesSurvive(es: seq<Entry>, isParam: bool)
    requires Nameable(es)
    ensures Nameable(NormalizeEntries(es, isParam))
  {
    if es != [] {
      WalkHead(es, isParam);
      NamesSurvive(es[1..], isParam);
      var rest := NormalizeEntries(es[1..], isParam);
      var w := Fix(es[0], isParam);
      if w.Some? {
        assert ([Entry(es[0].key, Normalize(w.value))] + rest)[1..] == rest;
      } else {
        assert [] + rest == rest;
      }
    }
  }

  lemma {:induction false} SetTypeKeepsNames(es: seq<Entry>, want: string)
    requires Nameable(es)
    ensures Nameable(SetType(es, want))
  {
    var out := SetType(es, want);
    if es == [] {
      assert HasIdentChar("type") by { assert IdentChar("type"[0]); }
      assert out[1..] == [];
    } else if Name(es[0]) == "type" {
      assert out[1..] == es[1..];
    } else {
      SetTypeKeepsNames(es[1..], want);
      assert out[1..] == SetType(es[1..], want);
    }
  }

  lemma WalkedPropertiesAreNameable(val: Tree)
    requires val.Mapping?
    ensures Normalize(FixProperties(val)).Mapping? && Nameable(Normalize(FixProperties(val)).entries)
  {
    var es := FixPropertyEntries(val.entries);
    FixPropertiesNames(val.entries);
    NamesSurvive(es, IsParam(es));
    var out := NormalizeEntries(es, IsParam(es));
    var members := DecidingEnum(out);
    if members.Some? { SetTypeKeepsNames(out, WantedType(members.value)); }
  }

  // ---- every entry the walk keeps is valid ----------------------------------------------

  lemma FixedTypeIsValid(val: Tree)
    requires FixType(val).Some?
    ensures FixType(val).value.Scalar? && ValidType(FixType(val).value.value)
  {
  }

  lemma FixedSecurityIsValid(val: Tree)
    requires val.Sequence?
    ensures Normalize(FixSecurity(val)).Sequence? && ScopesAreLists(Normalize(FixSecurity(val)).children)
  {
    FixSecurityFixes(val.children);
    ScopesSurvive(FixRequirements(val.children));
  }

  lemma FixedEntryIsValid(e: Entry, isParam: bool)
    requires Fix(e, isParam).Some?
    ensures ValidEntry(Entry(e.key, Normalize(Fix(e, isParam).value)), isParam)
  {
    var w := Fix(e, isParam).value;
    WalkKeepsKind(w);
    match KeywordOf(Name(e))
    case Type => FixedTypeIsValid(e.val);
    case Properties => if e.val.Mapping? { WalkedPropertiesAreNameable(e.val); }
    case Enum => if w.Sequence? { ScalarsWalkToThemselves(w.children); }
    case Security => if e.val.Sequence? { FixedSecurityIsValid(e.val); }
    case Paths => if e.val.Mapping? { WalkedPathsAreComplete(e.val); }
    case _ =>
  }

  lemma {:induction false} SetTypeKeepsValid(es: seq<Entry>, want: string, isParam: bool)
    requires ValidEntries(es, isParam) && ValidBelow(es) && (want == "integer" || want == "string")
    ensures ValidEntries(SetType(es, want), isParam) && ValidBelow(SetType(es, want))
  {
    var out := SetType(es, want);
    assert KeywordOf("type") == Type && ValidType(want);
    if es == [] {
      assert out[1..] == [];
    } else if Name(es[0]) == "type" {
      assert out[1..] == es[1..];
    } else {
      SetTypeKeepsValid(es[1..], want, isParam);
      assert out[1..] == SetType(es[1..], want);
    }
  }

  lemma ReconcileTypesEnum(es: seq<Entry>)
    ensures EnumTyped(Reconcile(es))
  {
    var members := DecidingEnum(es);
    if members.Some? {
      SetTypeTypes(es, WantedType(members.value));
      ReconcileKeepsOthers(es, "enum", "");
    }
  }

  lemma ReconcileKeepsValid(es: seq<Entry>, isParam: bool)
    requires ValidEntries(es, isParam) && ValidBelow(es)
    ensures ValidEntries(Reconcile(es), isParam) && ValidBelow(Reconcile(es))
  {
    var members := DecidingEnum(es);
    if members.Some? { SetTypeKeepsValid(es, WantedType(members.value), isParam); }
  }

  lemma {:induction false} OutputEntriesAreValid(es: seq<Entry>, isParam: bool)
    ensures ValidEntries(NormalizeEntries(es, isParam), isParam) && ValidBelow(NormalizeEntries(es, isParam))
    decreases PathsInEntries(es), DepthEntries(es) + 1, 1, |es|
  {
    if es != [] {
      HeadEntry(es);
      WalkHead(es, isParam);
      OutputEntriesAreValid(es[1..], isParam);
      var rest := NormalizeEntries(es[1..], isParam);
      var w := Fix(es[0], isParam);
      if w.Some? {
        FixDescends(KeywordOf(Name(es[0])), es[0].val, isParam);
        OutputIsValid(w.value);
        FixedEntryIsValid(es[0], isParam);
        assert ([Entry(es[0].key, Normalize(w.value))] + rest)[1..] == rest;
      } else {
        assert [] + rest == rest;
      }
    }
  }

  lemma {:induction false} OutputsAreValid(cs: seq<Tree>)
    ensures ValidAll(NormalizeAll(cs))
    decreases PathsInAll(cs), DepthAll(cs), 3, |cs|
  {
    if cs != [] {
      OutputIsValid(cs[0]);
      OutputsAreValid(cs[1..]);
      assert NormalizeAll(cs)[1..] == NormalizeAll(cs[1..]);
    }
  }

  /** Whatever the input, the output is valid at every mapping. */
  lemma {:induction false} OutputIsValid(t: Tree)
    ensures Valid(Normalize(t))
    decreases PathsIn(t), Depth(t), if t.Mapping? then 2 else 0, 0
  {
    match t
    case Document(cs) => OutputsAreValid(cs);
    case Sequence(_, _, cs) => OutputsAreValid(cs);
    case Mapping(_, _, es) =>
      var out := NormalizeEntries(es, IsParam(es));
      OutputEntriesAreValid(es, IsParam(es));
      ReconcileKeepsValid(out, IsParam(es));
      ReconcileTypesEnum(out);
      WalkKeepsParam(es, IsParam(es));
    case _ =>
  }

  // ---- what the rewrite leaves alone ------------------------------------------------------

  /** The entries the walk does not treat specially, in order. */
  function PlainEntries(es: seq<Entry>): seq<Entry> {
    if es == [] then []
    else (if KeywordOf(Name(es[0])) == Plain then [es[0]] else []) + PlainEntries(es[1..])
  }

  /** The same entries with their values walked. */
  function WalkedEach(es: seq<Entry>): seq<Entry> {
    if es == [] then [] else [Entry(es[0].key, Normalize(es[0].val))] + WalkedEach(es[1..])
  }

  function PlainOf(e: Entry): seq<Entry> {
    if KeywordOf(Name(e)) == Plain then [e] else []
  }

  /** What the walk makes of one entry. */
  function Walked(e: Entry, isParam: bool): seq<Entry> {
    match Fix(e, isParam) case None => [] case Some(w) => [Entry(e.key, Normalize(w))]
  }

  lemma PlainWalks(e: Entry, isParam: bool)
    ensures PlainEntries(Walked(e, isParam)) == WalkedEach(PlainOf(e))
  {
    var out := Walked(e, isParam);
    if out != [] { assert out[1..] == []; }
    if PlainOf(e) != [] { assert PlainOf(e)[1..] == []; }
  }

  lemma PlainCons(a: seq<Entry>, rest: seq<Entry>)
    requires |a| <= 1
    ensures PlainEntries(a + rest) == PlainEntries(a) + PlainEntries(rest)
    ensures WalkedEach(a + rest) == WalkedEach(a) + WalkedEach(rest)
  {
    if a == [] {
      assert a + rest == rest;
    } else {
      assert (a + rest)[1..] == rest && a[1..] == [];
    }
  }

  lemma {:induction false} PlainEntriesSurvive(es: seq<Entry>, isParam: bool)
    ensures PlainEntries(NormalizeEntries(es, isParam)) == WalkedEach(PlainEntries(es))
  {
    if es != [] {
      WalkHead(es, isParam);
      PlainEntriesSurvive(es[1..], isParam);
      PlainWalks(es[0], isParam);
      PlainCons(Walked(es[0], isParam), NormalizeEntries(es[1..], isParam));
      PlainCons(PlainOf(es[0]), PlainEntries(es[1..]));
    }
  }

  lemma {:induction false} SetTypeKeepsPlain(es: seq<Entry>, want: string)
    ensures PlainEntries(SetType(es, want)) == PlainEntries(es)
  {
    var out := SetType(es, want);
    assert KeywordOf("type") == Type;
    if es == [] {
      assert out[1..] == [];
    } else if Name(es[0]) == "type" {
      assert out[1..] == es[1..];
    } else {
      SetTypeKeepsPlain(es[1..], want);
      assert out[1..] == SetType(es[1..], want);
    }
  }

  /** At every mapping, entries with no special key are kept, in order, and only walked. */
  lemma PlainEntriesAreKept(t: Tree)
    requires t.Mapping?
    ensures Normalize(t).Mapping?
    ensures PlainEntries(Normalize(t).entries) == WalkedEach(PlainEntries(t.entries))
  {
    var out := NormalizeEntries(t.entries, IsParam(t.entries));
    PlainEntriesSurvive(t.entries, IsParam(t.entries));
    var members := DecidingEnum(out);
    if members.Some? { SetTypeKeepsPlain(out, WantedType(members.value)); }
  }
}
