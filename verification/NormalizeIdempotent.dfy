/** The rewrite is idempotent: fixing and walking a walked value gives it back. */
module NormalizeIdempotent {
  import opened Prelude
  import opened YamlTree
  import opened NormalizeSpec
  import opened NormalizeStable
  import opened NormalizePaths

  // ---- security ---------------------------------------------------------------------

  predicate NoMappings(es: seq<Entry>) {
    es == [] || (!es[0].val.Mapping? && NoMappings(es[1..]))
  }

  /** No requirement object has a mapping for a scope list. */
  predicate ScopesAreLists(cs: seq<Tree>) {
    cs == [] || ((cs[0].Mapping? ==> NoMappings(cs[0].entries)) && ScopesAreLists(cs[1..]))
  }

  lemma {:induction false} FixScopesFixes(es: seq<Entry>)
    ensures NoMappings(FixScopes(es))
    ensures NoMappings(es) ==> FixScopes(es) == es
  {
    if es != [] {
      FixScopesFixes(es[1..]);
      assert FixScopes(es)[1..] == FixScopes(es[1..]);
      assert es == [es[0]] + es[1..];
    }
  }

  /** What `fixSecurity` makes of one requirement. */
  function FixedRequirement(c: Tree): Tree {
    if c.Mapping? then c.(entries := FixScopes(c.entries)) else c
  }

  lemma FixRequirementFixes(c: Tree)
    ensures FixedRequirement(c).Mapping? ==> NoMappings(FixedRequirement(c).entries)
    ensures (c.Mapping? ==> NoMappings(c.entries)) ==> FixedRequirement(c) == c
  {
    if c.Mapping? { FixScopesFixes(c.entries); }
  }

  lemma {:induction false} FixSecurityFixes(cs: seq<Tree>)
    ensures ScopesAreLists(FixRequirements(cs))
    ensures ScopesAreLists(cs) ==> FixRequirements(cs) == cs
  {
    if cs != [] {
      FixSecurityFixes(cs[1..]);
      FixRequirementFixes(cs[0]);
      var rest := FixRequirements(cs[1..]);
      assert FixRequirements(cs) == [FixedRequirement(cs[0])] + rest;
      assert ([FixedRequirement(cs[0])] + rest)[1..] == rest;
      assert cs == [cs[0]] + cs[1..];
    }
  }

  lemma {:induction false} NoMappingsSurvive(es: seq<Entry>, isParam: bool)
    requires NoMappings(es)
    ensures NoMappings(NormalizeEntries(es, isParam))
  {
    if es != [] {
      WalkHead(es, isParam);
      NoMappingsSurvive(es[1..], isParam);
      var rest := NormalizeEntries(es[1..], isParam);
      var w := Fix(es[0], isParam);
      if w.Some? {
        FixMakesNoMapping(es[0], isParam);
        WalkKeepsKind(w.value);
        assert ([Entry(es[0].key, Normalize(w.value))] + rest)[1..] == rest;
      } else {
        assert [] + rest == rest;
      }
    }
  }

  lemma {:induction false} SetTypeKeepsNoMappings(es: seq<Entry>, want: string)
    requires NoMappings(es)
    ensures NoMappings(SetType(es, want))
  {
    var out := SetType(es, want);
    if es == [] {
      assert out[1..] == [];
    } else if Name(es[0]) == "type" {
      assert out[1..] == es[1..];
    } else {
      SetTypeKeepsNoMappings(es[1..], want);
      assert out[1..] == SetType(es[1..], want);
    }
  }

  lemma {:induction false} ScopesSurvive(cs: seq<Tree>)
    requires ScopesAreLists(cs)
    ensures ScopesAreLists(NormalizeAll(cs))
  {
    if cs != [] {
      ScopesSurvive(cs[1..]);
      if cs[0].Mapping? {
        var es := cs[0].entries;
        NoMappingsSurvive(es, IsParam(es));
        var out := NormalizeEntries(es, IsParam(es));
        var members := DecidingEnum(out);
        if members.Some? { SetTypeKeepsNoMappings(out, WantedType(members.value)); }
      }
      assert NormalizeAll(cs)[1..] == NormalizeAll(cs[1..]);
    }
  }

  // ---- properties -------------------------------------------------------------------

  /** What `fixProperties` leaves: nameable keys, and no scalar where a schema belongs. */
  predicate PropertiesReady(es: seq<Entry>) {
    es == [] || (HasIdentChar(Name(es[0])) && !es[0].val.Scalar? && PropertiesReady(es[1..]))
  }

  lemma {:induction false} FixPropertiesReadies(es: seq<Entry>)
    ensures PropertiesReady(FixPropertyEntries(es))
  {
    if es != [] {
      FixPropertiesReadies(es[1..]);
      var rest := FixPropertyEntries(es[1..]);
      if HasIdentChar(Name(es[0])) {
        assert FixPropertyEntries(es)[1..] == rest;
      } else {
        assert FixPropertyEntries(es) == rest;
      }
    }
  }

  predicate NoTypeKey(es: seq<Entry>) {
    es == [] || (Name(es[0]) != "type" && NoTypeKey(es[1..]))
  }

  /** Walking a ready entry, fixing it as a property again and walking it again gives the same entry. */
  lemma ReadyEntryReturns(e: Entry, isParam: bool)
    requires !e.val.Scalar? && Fix(e, isParam).Some?
    requires StableEntry(Entry(e.key, Normalize(Fix(e, isParam).value)), isParam)
    ensures var v := Normalize(Fix(e, isParam).value);
      StableReplaced(Entry(e.key, if v.Scalar? then EMPTY_MAPPING else v), v, isParam)
    ensures Name(e) != "type"
  {
    WalkKeepsKind(Fix(e, isParam).value);
  }

  /** The entry is kept, and the walk makes its value `v`. */
  predicate StableReplaced(e: Entry, v: Tree, isParam: bool) {
    Fix(e, isParam).Some? && Normalize(Fix(e, isParam).value) == v
  }

  lemma {:induction false} ReadyEntriesReturn(es: seq<Entry>, isParam: bool)
    requires PropertiesReady(es) && Stable(NormalizeEntries(es, isParam), isParam)
    ensures var out := NormalizeEntries(es, isParam);
      NormalizeEntries(FixPropertyEntries(out), isParam) == out && NoTypeKey(out)
  {
    if es != [] {
      WalkHead(es, isParam);
      var rest := NormalizeEntries(es[1..], isParam);
      var w := Fix(es[0], isParam);
      if w.None? {
        assert [] + rest == rest;
        ReadyEntriesReturn(es[1..], isParam);
      } else {
        var e := Entry(es[0].key, Normalize(w.value));
        assert ([e] + rest)[1..] == rest;
        ReadyEntriesReturn(es[1..], isParam);
        ReadyEntryReturns(es[0], isParam);
        var e' := Entry(e.key, if e.val.Scalar? then EMPTY_MAPPING else e.val);
        assert FixPropertyEntries([e] + rest) == [e'] + FixPropertyEntries(rest);
        WalkHead([e'] + FixPropertyEntries(rest), isParam);
        assert ([e'] + FixPropertyEntries(rest))[1..] == FixPropertyEntries(rest);
      }
    }
  }

  lemma {:induction false} AppendedType(es: seq<Entry>, want: string, isParam: bool)
    requires NoTypeKey(es)
    ensures SetType(es, want) == es + [Entry(Str("type"), Str(want))]
    ensures NormalizeEntries(FixPropertyEntries(SetType(es, want)), isParam) ==
      NormalizeEntries(FixPropertyEntries(es), isParam)
  {
    var t := Entry(Str("type"), Str(want));
    if es == [] {
      TypePropertyIsDropped(t, isParam);
    } else {
      AppendedType(es[1..], want, isParam);
      var out := SetType(es, want);
      assert out == [es[0]] + SetType(es[1..], want) && out[1..] == SetType(es[1..], want);
      assert es == [es[0]] + es[1..];
      if HasIdentChar(Name(es[0])) {
        var e := Entry(es[0].key, if es[0].val.Scalar? then EMPTY_MAPPING else es[0].val);
        assert FixPropertyEntries(out) == [e] + FixPropertyEntries(out[1..]);
        assert FixPropertyEntries(es) == [e] + FixPropertyEntries(es[1..]);
        WalkHead(FixPropertyEntries(out), isParam);
        WalkHead(FixPropertyEntries(es), isParam);
        assert FixPropertyEntries(out)[1..] == FixPropertyEntries(out[1..]);
        assert FixPropertyEntries(es)[1..] == FixPropertyEntries(es[1..]);
      } else {
        assert FixPropertyEntries(out) == FixPropertyEntries(out[1..]);
        assert FixPropertyEntries(es) == FixPropertyEntries(es[1..]);
      }
    }
  }

  /** A scalar property named `type` becomes an empty schema, which the walk then drops. */
  lemma TypePropertyIsDropped(t: Entry, isParam: bool)
    requires Name(t) == "type" && t.val.Scalar?
    ensures NormalizeEntries(FixPropertyEntries([t]), isParam) == []
  {
    assert [t][1..] == [];
    assert HasIdentChar(Name(t)) by { assert IdentChar(Name(t)[0]); }
    var e := Entry(t.key, EMPTY_MAPPING);
    assert FixPropertyEntries([t]) == [e] + [];
    WalkHead([e], isParam);
    assert [e][1..] == [];
  }

  /** Fix-then-walk is stable on a properties mapping whose entries are. */
  lemma PropertiesReturn(es: seq<Entry>)
    requires PropertiesReady(es) && Stable(NormalizeEntries(es, IsParam(es)), IsParam(es))
    ensures var out := Reconcile(NormalizeEntries(es, IsParam(es)));
      Reconcile(NormalizeEntries(FixPropertyEntries(out), IsParam(FixPropertyEntries(out)))) == out
  {
    var isParam := IsParam(es);
    var walked := NormalizeEntries(es, isParam);
    var out := Reconcile(walked);
    ReadyEntriesReturn(es, isParam);
    var members := DecidingEnum(walked);
    if members.Some? { AppendedType(walked, WantedType(members.value), isParam); }
    WalkKeepsParam(es, isParam);
    FixPropertiesKeepsParam(out);
  }

  lemma {:induction false} FixPropertiesKeepsKey(es: seq<Entry>, key: string)
    requires HasIdentChar(key)
    ensures HasKey(FixPropertyEntries(es), key) == HasKey(es, key)
  {
    if es != [] {
      FixPropertiesKeepsKey(es[1..], key);
      var rest := FixPropertyEntries(es[1..]);
      if HasIdentChar(Name(es[0])) {
        assert FixPropertyEntries(es)[1..] == rest;
      } else {
        assert FixPropertyEntries(es) == rest;
      }
    }
  }

  lemma FixPropertiesKeepsParam(es: seq<Entry>)
    ensures IsParam(FixPropertyEntries(es)) == IsParam(es)
  {
    assert HasIdentChar("in") by { assert IdentChar("in"[0]); }
    assert HasIdentChar("name") by { assert IdentChar("name"[0]); }
    FixPropertiesKeepsKey(es, "in");
    FixPropertiesKeepsKey(es, "name");
  }

  // ---- the induction ------------------------------------------------------------------

  /** `w`, a fixed value, walks to something that fixes and walks to itself. */
  predicate Returns(keyword: Keyword, w: Tree, isParam: bool) {
    var v := Normalize(w);
    FixAs(keyword, v, isParam).Some? && Normalize(FixAs(keyword, v, isParam).value) == v
  }

  lemma SimpleFixReturns(keyword: Keyword, val: Tree, isParam: bool)
    requires keyword !in [Properties, Security, Paths]
    requires FixAs(keyword, val, isParam).Some?
    requires Normalize(Normalize(FixAs(keyword, val, isParam).value)) == Normalize(FixAs(keyword, val, isParam).value)
    ensures Returns(keyword, FixAs(keyword, val, isParam).value, isParam)
  {
    var w := FixAs(keyword, val, isParam).value;
    WalkKeepsKind(w);
    if keyword == Enum && w.Sequence? { ScalarsWalkToThemselves(w.children); }
  }

  lemma {:induction false} ScalarsWalkToThemselves(cs: seq<Tree>)
    requires AllScalars(cs)
    ensures NormalizeAll(cs) == cs
  {
    if cs != [] {
      ScalarsWalkToThemselves(cs[1..]);
      assert cs == [cs[0]] + cs[1..];
    }
  }

  lemma WalkedSecurityIsFixed(val: Tree)
    ensures FixSecurity(Normalize(FixSecurity(val))) == Normalize(FixSecurity(val))
  {
    if val.Sequence? {
      FixSecurityFixes(val.children);
      ScopesSurvive(FixRequirements(val.children));
      FixSecurityFixes(NormalizeAll(FixRequirements(val.children)));
    } else {
      WalkKeepsKind(val);
    }
  }

  lemma CompletePathsAreFixed(v: Tree)
    requires v.Mapping? && AllComplete(v.entries)
    ensures FixPaths(v) == v
  {
    AllCompleteIsFixed(v.entries);
  }

  lemma WalkedPathsAreFixed(val: Tree)
    ensures FixPaths(Normalize(FixPaths(val))) == Normalize(FixPaths(val))
  {
    if val.Mapping? {
      WalkedPathsAreComplete(val);
      CompletePathsAreFixed(Normalize(FixPaths(val)));
    } else {
      WalkKeepsKind(val);
    }
  }

  lemma FixedReturns(keyword: Keyword, w: Tree, isParam: bool)
    requires FixAs(keyword, Normalize(w), isParam) == Some(Normalize(w))
    requires Normalize(Normalize(w)) == Normalize(w)
    ensures Returns(keyword, w, isParam)
  {
  }

  lemma PathsReturn(val: Tree, isParam: bool)
    requires Normalize(Normalize(FixPaths(val))) == Normalize(FixPaths(val))
    ensures Returns(Paths, FixPaths(val), isParam)
  {
    WalkedPathsAreFixed(val);
    FixedReturns(Paths, FixPaths(val), isParam);
  }

  /** Every fix returns, once its walked value is known to be a fixed point of the walk. */
  lemma FixReturns(keyword: Keyword, val: Tree, isParam: bool)
    requires FixAs(keyword, val, isParam).Some?
    requires Normalize(Normalize(FixAs(keyword, val, isParam).value)) == Normalize(FixAs(keyword, val, isParam).value)
    requires keyword == Properties && val.Mapping? ==>
      var es := FixPropertyEntries(val.entries);
      Stable(NormalizeEntries(es, IsParam(es)), IsParam(es))
    ensures Returns(keyword, FixAs(keyword, val, isParam).value, isParam)
  {
    match keyword
    case Security =>
      WalkedSecurityIsFixed(val);
      FixedReturns(Security, FixSecurity(val), isParam);
    case Paths => PathsReturn(val, isParam);
    case Properties =>
      WalkKeepsKind(FixProperties(val));
      if val.Mapping? {
        FixPropertiesReadies(val.entries);
        PropertiesReturn(FixPropertyEntries(val.entries));
      }
    case _ => SimpleFixReturns(keyword, val, isParam);
  }

  lemma {:induction false} IdempotentAll(cs: seq<Tree>)
    ensures NormalizeAll(NormalizeAll(cs)) == NormalizeAll(cs)
    decreases PathsInAll(cs), DepthAll(cs), 3, |cs|
  {
    if cs != [] {
      Idempotent(cs[0]);
      IdempotentAll(cs[1..]);
      assert NormalizeAll(cs)[1..] == NormalizeAll(cs[1..]);
    }
  }

  /** The entries a walk produces are stable under another walk. */
  lemma {:induction false} WalkedIsStable(es: seq<Entry>, isParam: bool)
    ensures Stable(NormalizeEntries(es, isParam), isParam)
    decreases PathsInEntries(es), DepthEntries(es) + 1, 1, |es|
  {
    if es != [] {
      HeadEntry(es);
      WalkHead(es, isParam);
      WalkedIsStable(es[1..], isParam);
      var rest := NormalizeEntries(es[1..], isParam);
      var keyword := KeywordOf(Name(es[0]));
      var w := Fix(es[0], isParam);
      if w.None? {
        assert [] + rest == rest;
      } else {
        FixDescends(keyword, es[0].val, isParam);
        Idempotent(w.value);
        if keyword == Properties && es[0].val.Mapping? { WalkedIsStable(w.value.entries, IsParam(w.value.entries)); }
        FixReturns(keyword, es[0].val, isParam);
        assert ([Entry(es[0].key, Normalize(w.value))] + rest)[1..] == rest;
      }
    }
  }

  /** Normalizing a normalized tree changes nothing. */
  lemma {:induction false} Idempotent(t: Tree)
    ensures Normalize(Normalize(t)) == Normalize(t)
    decreases PathsIn(t), Depth(t), if t.Mapping? then 2 else 0, 0
  {
    match t
    case Document(cs) => IdempotentAll(cs);
    case Sequence(_, _, cs) => IdempotentAll(cs);
    case Mapping(_, _, es) =>
      var isParam := IsParam(es);
      var out := NormalizeEntries(es, isParam);
      WalkedIsStable(es, isParam);
      ReconcileKeepsStable(out, isParam);
      StableIsFixed(Reconcile(out), isParam);
      WalkKeepsParam(es, isParam);
      ReconcileTwice(out);
    case _ =>
  }

  /** A properties mapping whose one property is named like a keyword. */
  const ONE_PROPERTY := Entry(Str("additionalProperties"), EMPTY_MAPPING)
  const ONCE_WALKED := Entry(Str("additionalProperties"), Scalar("!!bool", "true", 0))

  lemma OnePropertyWalks()
    ensures NormalizeEntries([ONE_PROPERTY], false) == [ONCE_WALKED]
    ensures Reconcile([ONCE_WALKED]) == [ONCE_WALKED] && !IsParam([ONE_PROPERTY])
  {
    assert [ONE_PROPERTY][1..] == [] && [ONCE_WALKED][1..] == [];
    WalkHead([ONE_PROPERTY], false);
    assert KeywordOf("additionalProperties") == AdditionalProperties;
    assert |"enum"| == 4 && |"in"| == 2 && |"additionalProperties"| == 20;
    assert MapValue([ONCE_WALKED], "enum") == MapValue([], "enum");
    assert MapValue([ONE_PROPERTY], "in") == MapValue([], "in");
  }

  lemma OnePropertyIsFixed()
    ensures FixPropertyEntries([ONE_PROPERTY]) == [ONE_PROPERTY] && FixPropertyEntries([ONCE_WALKED]) == [ONE_PROPERTY]
  {
    assert HasIdentChar(Name(ONE_PROPERTY)) by { assert IdentChar(Name(ONE_PROPERTY)[0]); }
    assert Name(ONCE_WALKED) == Name(ONE_PROPERTY) && ONCE_WALKED.val.Scalar? && !ONE_PROPERTY.val.Scalar?;
    assert [ONE_PROPERTY][1..] == [] && [ONCE_WALKED][1..] == [];
    assert FixPropertyEntries([]) == [] && [ONE_PROPERTY] + [] == [ONE_PROPERTY];
  }

  /** `fixProperties` on its own is not stable after the walk: only fixing and walking again is. */
  lemma FixPropertiesAloneIsNotStable()
    ensures var once := Normalize(FixProperties(Mapping("!!map", 0, [ONE_PROPERTY])));
      FixProperties(once) != once && Normalize(FixProperties(once)) == once
  {
    OnePropertyWalks();
    OnePropertyIsFixed();
  }
}
