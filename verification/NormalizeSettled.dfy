/** Which trees the rewrite leaves exactly as they are, told from the tree alone. */
module NormalizeSettled {
  import opened Prelude
  import opened YamlTree
  import opened NormalizeSpec
  import opened NormalizeStable
  import opened NormalizePaths
  import opened NormalizeIdempotent
  import opened NormalizeValid

  // ---- what a settled tree is --------------------------------------------------------------

  /** Nothing is left to fix, here and below. */
  predicate Settled(t: Tree)
    decreases t, 2
  {
    match t
    case Document(cs) => SettledAll(cs)
    case Sequence(_, _, cs) => SettledAll(cs)
    case Mapping(_, _, es) => SettledEntries(es, IsParam(es)) && EnumTyped(es)
    case _ => true
  }

  predicate SettledAll(cs: seq<Tree>)
    decreases cs, 0
  {
    cs == [] || (Settled(cs[0]) && SettledAll(cs[1..]))
  }

  predicate SettledEntries(es: seq<Entry>, isParam: bool)
    decreases es, 0
  {
    es == [] || (SettledEntry(es[0], isParam) && SettledEntries(es[1..], isParam))
  }

  /** A parameter's `required`: a boolean scalar, written plainly when it says true or false. */
  predicate PlainFlag(val: Tree) {
    val.Scalar? && val.tag == "!!bool" && (val.value == "true" || val.value == "false" ==> val.style == 0)
  }

  /** An entry with nothing to fix, by its key. */
  predicate SettledEntry(e: Entry, isParam: bool)
    decreases e, 0
  {
    match KeywordOf(Name(e))
    case Type => e.val.Scalar? && e.val.tag != "!!null" && ValidType(e.val.value)
    case Required => if isParam then PlainFlag(e.val) else e.val.Sequence? && Settled(e.val)
    case Properties =>
      if e.val.Mapping? then SettledSchemas(e.val.entries, IsParam(e.val.entries), AppendedTo(e.val.entries))
      else Settled(e.val)
    case Enum => !e.val.Scalar? && (e.val.Sequence? ==> AllScalars(e.val.children)) && Settled(e.val)
    case Security => (e.val.Sequence? ==> ScopesAreLists(e.val.children)) && Settled(e.val)
    case Paths => (e.val.Mapping? ==> AllComplete(e.val.entries)) && Settled(e.val)
    case Plain => Settled(e.val)
    case _ => !e.val.Mapping? && Settled(e.val)  // oneOf, anyOf, allOf, tags, additionalProperties
  }

  /** The `type` that a deciding `enum` property makes the walk append to a properties mapping. */
  function AppendedTo(es: seq<Entry>): Option<Entry> {
    match DecidingEnum(es)
    case None => None
    case Some(members) => Some(Entry(Str("type"), Str(WantedType(members))))
  }

  /** The entries of a properties mapping, the appended one last. */
  predicate SettledSchemas(es: seq<Entry>, isParam: bool, appended: Option<Entry>)
    decreases es, 0
  {
    if es == [] then appended.None?
    else if |es| == 1 && appended.Some? then es[0] == appended.value
    else SettledSchema(es[0], isParam) && SettledSchemas(es[1..], isParam, appended)
  }

  /** A property: a scalar only where an empty schema under that key is walked to one. */
  predicate SettledSchema(e: Entry, isParam: bool)
    decreases e, 1
  {
    && HasIdentChar(Name(e)) && Name(e) != "type"
    && if e.val.Scalar? then WalkedFromEmpty(e, isParam) else SettledEntry(e, isParam)
  }

  predicate WalkedFromEmpty(e: Entry, isParam: bool) {
    || (KeywordOf(Name(e)) == Required && isParam && e.val == Scalar("!!bool", "false", 0))
    || (KeywordOf(Name(e)) == AdditionalProperties && e.val == Scalar("!!bool", "true", 0))
  }

  // ---- a mapping that is left alone ----------------------------------------------------------

  lemma ReconciledIff(es: seq<Entry>)
    ensures Reconcile(es) == es <==> EnumTyped(es)
  {
    ReconcileTypesEnum(es);
    var members := DecidingEnum(es);
    if members.Some? && EnumTyped(es) { TypedIsSet(es, WantedType(members.value)); }
  }

  /** A mapping is left alone exactly when each of its entries is and its enumeration fits its type. */
  lemma MappingFixedIff(es: seq<Entry>)
    ensures Reconcile(NormalizeEntries(es, IsParam(es))) == es <==> Stable(es, IsParam(es)) && EnumTyped(es)
  {
    var isParam := IsParam(es);
    var walked := NormalizeEntries(es, isParam);
    if Reconcile(walked) == es {
      WalkedIsStable(es, isParam);
      ReconcileKeepsStable(walked, isParam);
      ReconcileTypesEnum(walked);
    }
    if Stable(es, isParam) && EnumTyped(es) {
      StableIsFixed(es, isParam);
      ReconciledIff(es);
    }
  }

  // ---- one entry, by its keyword ----------------------------------------------------------------

  /** The value is left alone by the walk exactly when it is settled. */
  predicate Agrees(val: Tree) {
    Normalize(val) == val <==> Settled(val)
  }

  lemma TypeStableIff(e: Entry, isParam: bool)
    requires KeywordOf(Name(e)) == Type
    ensures StableEntry(e, isParam) <==> SettledEntry(e, isParam)
  {
    if FixType(e.val).Some? { WalkKeepsKind(FixType(e.val).value); }
  }

  lemma RequiredStableIff(e: Entry, isParam: bool)
    requires KeywordOf(Name(e)) == Required && Agrees(e.val)
    ensures StableEntry(e, isParam) <==> SettledEntry(e, isParam)
  {
    if FixRequired(e.val, isParam).Some? { WalkKeepsKind(FixRequired(e.val, isParam).value); }
  }

  lemma EnumStableIff(e: Entry, isParam: bool)
    requires KeywordOf(Name(e)) == Enum && Agrees(e.val)
    ensures StableEntry(e, isParam) <==> SettledEntry(e, isParam)
  {
    if FixEnum(e.val).Some? { WalkKeepsKind(FixEnum(e.val).value); }
  }

  lemma SecurityStableIff(e: Entry, isParam: bool)
    requires KeywordOf(Name(e)) == Security && Agrees(e.val)
    ensures StableEntry(e, isParam) <==> SettledEntry(e, isParam)
  {
    if e.val.Sequence? {
      FixSecurityFixes(e.val.children);
      FixedSecurityIsValid(e.val);
    }
  }

  lemma PathsStableIff(e: Entry, isParam: bool)
    requires KeywordOf(Name(e)) == Paths && Agrees(e.val)
    ensures StableEntry(e, isParam) <==> SettledEntry(e, isParam)
  {
    if e.val.Mapping? {
      WalkedPathsAreComplete(e.val);
      if AllComplete(e.val.entries) { CompletePathsAreFixed(e.val); }
    }
  }

  lemma WrappedStableIff(e: Entry, isParam: bool)
    requires KeywordOf(Name(e)) == Composition && Agrees(e.val)
    ensures StableEntry(e, isParam) <==> SettledEntry(e, isParam)
  {
    WalkKeepsKind(FixComposition(e.val));
  }

  lemma TagsStableIff(e: Entry, isParam: bool)
    requires KeywordOf(Name(e)) == Tags && Agrees(e.val)
    ensures StableEntry(e, isParam) <==> SettledEntry(e, isParam)
  {
    WalkKeepsKind(FixTags(e.val));
  }

  lemma AdditionalStableIff(e: Entry, isParam: bool)
    requires KeywordOf(Name(e)) == AdditionalProperties && Agrees(e.val)
    ensures StableEntry(e, isParam) <==> SettledEntry(e, isParam)
  {
    WalkKeepsKind(FixAdditionalProperties(e.val));
  }

  // ---- properties ---------------------------------------------------------------------------------

  /** What `fixProperties` makes of an entry whose key it keeps. */
  function Repaired(e: Entry): Entry {
    Entry(e.key, if e.val.Scalar? then EMPTY_MAPPING else e.val)
  }

  /** Each entry is kept by `fixProperties` and, repaired, walked to itself. */
  predicate Returning(es: seq<Entry>, isParam: bool) {
    es == [] || (ReturningEntry(es[0], isParam) && Returning(es[1..], isParam))
  }

  predicate ReturningEntry(e: Entry, isParam: bool) {
    HasIdentChar(Name(e)) && Name(e) != "type" && StableReplaced(Repaired(e), e.val, isParam)
  }

  lemma {:induction false} ReturningIsFixed(es: seq<Entry>, isParam: bool)
    requires Returning(es, isParam)
    ensures NormalizeEntries(FixPropertyEntries(es), isParam) == es && NoTypeKey(es)
  {
    if es != [] {
      ReturningIsFixed(es[1..], isParam);
      var rest := FixPropertyEntries(es[1..]);
      assert FixPropertyEntries(es) == [Repaired(es[0])] + rest;
      assert ([Repaired(es[0])] + rest)[1..] == rest;
      WalkHead(FixPropertyEntries(es), isParam);
      assert es == [es[0]] + es[1..];
    }
  }

  lemma {:induction false} WalkedReturns(es: seq<Entry>, isParam: bool)
    requires PropertiesReady(es) && Stable(NormalizeEntries(es, isParam), isParam)
    ensures Returning(NormalizeEntries(es, isParam), isParam)
  {
    if es != [] {
      WalkHead(es, isParam);
      var rest := NormalizeEntries(es[1..], isParam);
      var w := Fix(es[0], isParam);
      if w.None? {
        assert [] + rest == rest;
        WalkedReturns(es[1..], isParam);
      } else {
        var e := Entry(es[0].key, Normalize(w.value));
        assert ([e] + rest)[1..] == rest;
        WalkedReturns(es[1..], isParam);
        ReadyEntryReturns(es[0], isParam);
      }
    }
  }

  /** A properties mapping comes back exactly when all its entries do, but for an appended `type`. */
  predicate Comes(es: seq<Entry>, isParam: bool, appended: Option<Entry>) {
    if appended.None? then Returning(es, isParam)
    else es != [] && Last(es) == appended.value && Returning(Init(es), isParam)
  }

  lemma ReconciledComes(walked: seq<Entry>, isParam: bool)
    requires Returning(walked, isParam)
    ensures var es := Reconcile(walked); AppendedTo(es) == AppendedTo(walked) && Comes(es, isParam, AppendedTo(es))
  {
    ReturningIsFixed(walked, isParam);
    ReconcileKeepsOthers(walked, "enum", "");
    var members := DecidingEnum(walked);
    if members.Some? {
      AppendedType(walked, WantedType(members.value), isParam);
      assert Init(Reconcile(walked)) == walked;
    }
  }

  lemma {:induction false} AppendKeepsOthers(es: seq<Entry>, e: Entry, key: string)
    requires Name(e) != key
    ensures MapValue(es + [e], key) == MapValue(es, key)
  {
    if es == [] {
      assert [e][1..] == [] && [] + [e] == [e];
    } else {
      assert (es + [e])[1..] == es[1..] + [e];
      AppendKeepsOthers(es[1..], e, key);
    }
  }

  lemma ComingIsFixed(es: seq<Entry>, isParam: bool)
    requires Comes(es, isParam, AppendedTo(es))
    ensures Reconcile(NormalizeEntries(FixPropertyEntries(es), isParam)) == es
  {
    var appended := AppendedTo(es);
    if appended.None? {
      ReturningIsFixed(es, isParam);
    } else {
      var body := Init(es);
      assert es == body + [appended.value];
      AppendKeepsOthers(body, appended.value, "enum");
      ReturningIsFixed(body, isParam);
      AppendedType(body, appended.value.val.value, isParam);
    }
  }

  lemma PropertiesFixedIff(es: seq<Entry>)
    ensures Reconcile(NormalizeEntries(FixPropertyEntries(es), IsParam(FixPropertyEntries(es)))) == es
      <==> Comes(es, IsParam(es), AppendedTo(es))
  {
    var isParam, ready := IsParam(es), FixPropertyEntries(es);
    FixPropertiesKeepsParam(es);
    if Reconcile(NormalizeEntries(ready, isParam)) == es {
      FixPropertiesReadies(es);
      WalkedIsStable(ready, isParam);
      WalkedReturns(ready, isParam);
      ReconciledComes(NormalizeEntries(ready, isParam), isParam);
    }
    if Comes(es, isParam, AppendedTo(es)) { ComingIsFixed(es, isParam); }
  }

  /** A scalar property is what the walk makes of the empty schema in its place. */
  lemma ScalarSchemaIff(e: Entry, isParam: bool)
    requires e.val.Scalar? && Name(e) != "type"
    ensures StableReplaced(Repaired(e), e.val, isParam) <==> WalkedFromEmpty(e, isParam)
  {
    var w := Fix(Repaired(e), isParam);
    if w.Some? { WalkKeepsKind(w.value); }
  }

  lemma {:induction false} ComesIffSettled(es: seq<Entry>, isParam: bool, appended: Option<Entry>)
    requires forall i :: 0 <= i < |es| ==> (ReturningEntry(es[i], isParam) <==> SettledSchema(es[i], isParam))
    ensures Comes(es, isParam, appended) <==> SettledSchemas(es, isParam, appended)
  {
    if es != [] && !(|es| == 1 && appended.Some?) {
      ComesIffSettled(es[1..], isParam, appended);
      if appended.Some? {
        assert Init(es)[1..] == Init(es[1..]);
      }
    }
  }

  // ---- the induction ---------------------------------------------------------------------------------

  lemma {:induction false} SchemaAgrees(e: Entry, isParam: bool)
    ensures ReturningEntry(e, isParam) <==> SettledSchema(e, isParam)
    decreases e, 1
  {
    if Name(e) != "type" {
      if e.val.Scalar? {
        ScalarSchemaIff(e, isParam);
      } else {
        EntryAgrees(e, isParam);
      }
    }
  }

  lemma {:induction false} PropertiesAgree(e: Entry, isParam: bool)
    requires KeywordOf(Name(e)) == Properties && e.val.Mapping?
    ensures StableEntry(e, isParam) <==> SettledEntry(e, isParam)
    decreases e.val, 1
  {
    var es := e.val.entries;
    PropertiesFixedIff(es);
    forall i | 0 <= i < |es|
      ensures ReturningEntry(es[i], IsParam(es)) <==> SettledSchema(es[i], IsParam(es))
    {
      SchemaAgrees(es[i], IsParam(es));
    }
    ComesIffSettled(es, IsParam(es), AppendedTo(es));
  }

  lemma {:induction false} EntryAgrees(e: Entry, isParam: bool)
    ensures StableEntry(e, isParam) <==> SettledEntry(e, isParam)
    decreases e, 0
  {
    FixedIffSettled(e.val);
    match KeywordOf(Name(e))
    case Type => TypeStableIff(e, isParam);
    case Required => RequiredStableIff(e, isParam);
    case Properties => if e.val.Mapping? { PropertiesAgree(e, isParam); }
    case Enum => EnumStableIff(e, isParam);
    case Security => SecurityStableIff(e, isParam);
    case Paths => PathsStableIff(e, isParam);
    case Composition => WrappedStableIff(e, isParam);
    case Tags => TagsStableIff(e, isParam);
    case AdditionalProperties => AdditionalStableIff(e, isParam);
    case Plain =>
  }

  lemma {:induction false} EntriesAgree(es: seq<Entry>, isParam: bool)
    ensures Stable(es, isParam) <==> SettledEntries(es, isParam)
    decreases es, 0
  {
    if es != [] {
      EntryAgrees(es[0], isParam);
      EntriesAgree(es[1..], isParam);
    }
  }

  lemma {:induction false} AllAgree(cs: seq<Tree>)
    ensures NormalizeAll(cs) == cs <==> SettledAll(cs)
    decreases cs, 0
  {
    if cs != [] {
      FixedIffSettled(cs[0]);
      AllAgree(cs[1..]);
      assert cs == [cs[0]] + cs[1..];
      assert NormalizeAll(cs)[0] == Normalize(cs[0]) && NormalizeAll(cs)[1..] == NormalizeAll(cs[1..]);
    }
  }

  /** The rewrite leaves a tree exactly as it is exactly when nothing in it is left to fix. */
  lemma {:induction false} FixedIffSettled(t: Tree)
    ensures Normalize(t) == t <==> Settled(t)
    decreases t, 2
  {
    match t
    case Document(cs) => AllAgree(cs);
    case Sequence(_, _, cs) => AllAgree(cs);
    case Mapping(_, _, es) =>
      MappingFixedIff(es);
      EntriesAgree(es, IsParam(es));
    case _ =>
  }

  /** So the settled trees are the outputs of the rewrite, and no others. */
  lemma OutputsAreTheSettled(t: Tree)
    ensures Settled(Normalize(t))
    ensures Settled(t) ==> Normalize(t) == t
  {
    Idempotent(t);
    FixedIffSettled(Normalize(t));
    FixedIffSettled(t);
  }
}
