/**
  What becomes of each entry of a mapping, said on the output alone: key by key, with the keys, tokens
  and fields of the document format written out.
 */
module NormalizeMeaning {
  import opened Prelude
  import opened YamlTree
  import opened NormalizeSpec
  import opened NormalizeStable
  import opened NormalizePaths
  import opened NormalizeIdempotent

  // ---- every entry by itself -----------------------------------------------------

  /** What one entry leaves in the output. */
  function Contribution(e: Entry, isParam: bool): seq<Entry> {
    match Fix(e, isParam) case None => [] case Some(w) => [Entry(e.key, Normalize(w))]
  }

  lemma Regroup<T>(a: seq<T>, b: seq<T>, c: seq<T>)
    ensures (a + b) + c == a + (b + c)
  {
  }

  /** Each entry contributes by itself, in place. */
  lemma {:induction false} EntriesWalkApart(a: seq<Entry>, b: seq<Entry>, isParam: bool)
    ensures NormalizeEntries(a + b, isParam) == NormalizeEntries(a, isParam) + NormalizeEntries(b, isParam)
  {
    if a == [] {
      assert a + b == b;
    } else {
      assert (a + b)[1..] == a[1..] + b;
      EntriesWalkApart(a[1..], b, isParam);
      WalkHead(a, isParam);
      WalkHead(a + b, isParam);
      Regroup(Contribution(a[0], isParam), NormalizeEntries(a[1..], isParam), NormalizeEntries(b, isParam));
    }
  }

  /** The children of a sequence or a document are rewritten each in its place. */
  lemma {:induction false} ChildrenWalkApart(cs: seq<Tree>)
    ensures |NormalizeAll(cs)| == |cs|
    ensures forall i :: 0 <= i < |cs| ==> NormalizeAll(cs)[i] == Normalize(cs[i])
  {
    if cs != [] { ChildrenWalkApart(cs[1..]); }
  }

  /** A lone entry is dropped, or its key stays and its value is fixed and rewritten. */
  lemma OneEntry(e: Entry, isParam: bool)
    ensures NormalizeEntries([e], isParam) == Contribution(e, isParam)
  {
    WalkHead([e], isParam);
    assert [e][1..] == [];
  }

  predicate Ascending(kept: seq<nat>) {
    forall i, j :: 0 <= i < j < |kept| ==> kept[i] < kept[j]
  }

  predicate AllWanted<T(!new)>(kept: seq<nat>, s: seq<T>, want: T -> bool) {
    forall k :: 0 <= k < |kept| ==> kept[k] < |s| && want(s[kept[k]])
  }

  predicate NoneLeftOut<T(!new)>(kept: seq<nat>, s: seq<T>, want: T -> bool) {
    forall i: nat :: i < |s| && want(s[i]) ==> i in kept
  }

  /** The positions of `s` whose elements are wanted, all of them, ascending. */
  predicate Picks<T(!new)>(kept: seq<nat>, s: seq<T>, want: T -> bool) {
    Ascending(kept) && AllWanted(kept, s, want) && NoneLeftOut(kept, s, want)
  }

  /** What `make` makes of the picked elements, in order. */
  ghost predicate MadeOf<T(!new), U>(out: seq<U>, kept: seq<nat>, s: seq<T>, make: T -> U) {
    && |out| == |kept|
    && forall k :: 0 <= k < |kept| ==> kept[k] < |s| && out[k] == make(s[kept[k]])
  }

  function Shifted(kept: seq<nat>): (r: seq<nat>)
    ensures |r| == |kept| && forall k :: 0 <= k < |kept| ==> r[k] == kept[k] + 1
  {
    seq(|kept|, k requires 0 <= k < |kept| => kept[k] + 1)
  }

  lemma WantedMore<T(!new)>(kept: seq<nat>, s: seq<T>, want: T -> bool)
    requires s != [] && AllWanted(kept, s[1..], want)
    ensures AllWanted(Shifted(kept), s, want)
    ensures want(s[0]) ==> AllWanted([0] + Shifted(kept), s, want)
  {
    forall k | 0 <= k < |kept|
      ensures kept[k] + 1 < |s| && want(s[kept[k] + 1])
    {
      assert s[1..][kept[k]] == s[kept[k] + 1];
    }
  }

  lemma LeftOutMore<T(!new)>(kept: seq<nat>, s: seq<T>, want: T -> bool, i: nat)
    requires 0 < i < |s| && want(s[i]) && NoneLeftOut(kept, s[1..], want)
    ensures i in Shifted(kept)
  {
    assert s[1..][i - 1] == s[i];
    var k :| 0 <= k < |kept| && kept[k] == i - 1;
    assert Shifted(kept)[k] == i;
  }

  lemma LeftOutSkip<T(!new)>(kept: seq<nat>, s: seq<T>, want: T -> bool)
    requires s != [] && NoneLeftOut(kept, s[1..], want)
    ensures !want(s[0]) ==> NoneLeftOut(Shifted(kept), s, want)
    ensures NoneLeftOut([0] + Shifted(kept), s, want)
  {
    forall i: nat | 0 < i < |s| && want(s[i])
      ensures i in Shifted(kept)
    {
      LeftOutMore(kept, s, want, i);
    }
  }

  /** One element more in front. */
  lemma PicksMore<T(!new)>(kept: seq<nat>, s: seq<T>, want: T -> bool) returns (all: seq<nat>)
    requires s != [] && Picks(kept, s[1..], want)
    ensures Picks(all, s, want) && all == if want(s[0]) then [0] + Shifted(kept) else Shifted(kept)
  {
    WantedMore(kept, s, want);
    LeftOutSkip(kept, s, want);
    all := if want(s[0]) then [0] + Shifted(kept) else Shifted(kept);
  }

  lemma MadeOfMore<T(!new), U>(out: seq<U>, kept: seq<nat>, s: seq<T>, make: T -> U)
    requires s != [] && MadeOf(out, kept, s[1..], make)
    ensures MadeOf(out, Shifted(kept), s, make)
    ensures MadeOf([make(s[0])] + out, [0] + Shifted(kept), s, make)
  {
    assert forall k :: 0 <= k < |kept| ==> s[1..][kept[k]] == s[kept[k] + 1];
  }

  lemma PickHead<T(!new), U>(out: seq<U>, kept: seq<nat>, s: seq<T>, want: T -> bool, make: T -> U)
    returns (all: seq<nat>)
    requires s != [] && Picks(kept, s[1..], want) && MadeOf(out, kept, s[1..], make)
    ensures Picks(all, s, want) && MadeOf((if want(s[0]) then [make(s[0])] else []) + out, all, s, make)
  {
    MadeOfMore(out, kept, s, make);
    all := PicksMore(kept, s, want);
    assert [] + out == out;
  }

  // ---- oneOf, anyOf, allOf -----------------------------------------------------------

  /** A lone schema is put in a list and is still there; a list stays one. */
  lemma CompositionBecomes(key: Tree, val: Tree, isParam: bool)
    requires Text(key) in ["oneOf", "anyOf", "allOf"]
    ensures NormalizeEntries([Entry(key, val)], isParam) ==
      [Entry(key, if val.Mapping? then Sequence("!!seq", 0, [Normalize(val)]) else Normalize(val))]
  {
    OneEntry(Entry(key, val), isParam);
    assert [val][1..] == [];
    assert NormalizeAll([val]) == [Normalize(val)];
  }

  // ---- type ----------------------------------------------------------------------------

  /** The token that a type token is replaced with. */
  predicate MeansType(token: string, canon: string) {
    || (canon == token && canon in ["string", "number", "integer", "boolean", "array", "object"])
    || (token, canon) in [("bool", "boolean"), ("double", "number"), ("real", "number"), ("float", "number"),
                          ("int", "integer")]
  }

  /** A type that is kept means what it said; it goes when it says nothing that has a meaning. */
  lemma TypeBecomes(key: Tree, val: Tree, isParam: bool)
    requires Text(key) == "type"
    ensures var out := NormalizeEntries([Entry(key, val)], isParam);
      && (out == [] <==> !val.Scalar? || val.tag == "!!null" || forall canon :: !MeansType(val.value, canon))
      && (out != [] ==>
            && out == [Entry(key, out[0].val)] && out[0].val.Scalar? && MeansType(val.value, out[0].val.value)
            && (out[0].val == val || (out[0].val.tag == "!!str" && out[0].val.style == 0)))
  {
    OneEntry(Entry(key, val), isParam);
    if val.Scalar? && val.tag != "!!null" {
      if val.value in ["string", "number", "integer", "boolean", "array", "object"] {
        assert MeansType(val.value, val.value);
      } else if TypeCanon(val.value).Some? {
        assert MeansType(val.value, TypeCanon(val.value).value);
      }
    }
  }

  // ---- required ------------------------------------------------------------------------

  /** On a parameter it becomes a boolean that says what it said, or `false`; on a schema only a list stays. */
  lemma RequiredBecomes(key: Tree, val: Tree, isParam: bool)
    requires Text(key) == "required"
    ensures var out := NormalizeEntries([Entry(key, val)], isParam);
      if isParam then
        && out == [Entry(key, out[0].val)] && out[0].val.Scalar? && out[0].val.tag == "!!bool"
        && out[0].val.value == if val.Scalar? && (val.value in ["true", "false"] || val.tag == "!!bool")
                               then val.value else "false"
      else out == if val.Sequence? then [Entry(key, Normalize(val))] else []
  {
    OneEntry(Entry(key, val), isParam);
  }

  // ---- properties ----------------------------------------------------------------------

  /** The key has an ASCII letter or digit. */
  predicate Named(e: Entry) {
    exists i :: 0 <= i < |Text(e.key)| &&
      var c := Text(e.key)[i]; 'a' <= c <= 'z' || 'A' <= c <= 'Z' || '0' <= c <= '9'
  }

  /** A scalar schema is replaced with an empty one. */
  function AsSchema(e: Entry): Entry {
    if e.val.Scalar? then Entry(e.key, Mapping("!!map", 0, [])) else e
  }

  lemma {:induction false} PropertyEntriesAre(es: seq<Entry>) returns (kept: seq<nat>)
    ensures Picks(kept, es, Named) && MadeOf(FixPropertyEntries(es), kept, es, AsSchema)
  {
    kept := [];
    if es != [] {
      kept := PropertyEntriesAre(es[1..]);
      kept := PickHead(FixPropertyEntries(es[1..]), kept, es, Named, AsSchema);
      assert HasIdentChar(Name(es[0])) == Named(es[0]);
    }
  }

  /** A properties mapping keeps its named schemas and loses the others; anything else stays. */
  lemma PropertiesBecome(key: Tree, val: Tree, isParam: bool) returns (schemas: seq<Entry>, kept: seq<nat>)
    requires Text(key) == "properties"
    ensures val.Mapping? ==>
      && Picks(kept, val.entries, Named) && MadeOf(schemas, kept, val.entries, AsSchema)
      && NormalizeEntries([Entry(key, val)], isParam) == [Entry(key, Normalize(Mapping(val.tag, val.style, schemas)))]
    ensures !val.Mapping? ==> NormalizeEntries([Entry(key, val)], isParam) == [Entry(key, Normalize(val))]
  {
    OneEntry(Entry(key, val), isParam);
    schemas, kept := [], [];
    if val.Mapping? {
      schemas := FixPropertyEntries(val.entries);
      kept := PropertyEntriesAre(val.entries);
    }
  }

  // ---- enum ----------------------------------------------------------------------------

  /** A lone member becomes a list of one, a list with a member that is no scalar goes, the rest stays. */
  lemma EnumBecomes(key: Tree, val: Tree, isParam: bool)
    requires Text(key) == "enum"
    ensures NormalizeEntries([Entry(key, val)], isParam) ==
      if val.Scalar? then [Entry(key, Sequence("!!seq", 0, [val]))]
      else if val.Sequence? && exists i :: 0 <= i < |val.children| && !val.children[i].Scalar? then []
      else if val.Sequence? then [Entry(key, val)]
      else [Entry(key, Normalize(val))]
  {
    OneEntry(Entry(key, val), isParam);
    if val.Scalar? {
      ScalarsWalkToThemselves([val]);
    } else if val.Sequence? && AllScalars(val.children) {
      ScalarsWalkToThemselves(val.children);
    }
  }

  // ---- security ------------------------------------------------------------------------

  /** The same schemes in the same order, with an empty list for scopes that were a mapping. */
  predicate SameSchemes(was: seq<Entry>, now: seq<Entry>) {
    && |now| == |was|
    && forall i :: 0 <= i < |was| ==>
         now[i] == if was[i].val.Mapping? then Entry(was[i].key, Sequence("!!seq", 0, [])) else was[i]
  }

  predicate SameRequirement(was: Tree, now: Tree) {
    if was.Mapping? then now.Mapping? && now.tag == was.tag && now.style == was.style
                         && SameSchemes(was.entries, now.entries)
    else now == was
  }

  lemma {:induction false} ScopesAre(es: seq<Entry>)
    ensures SameSchemes(es, FixScopes(es))
  {
    if es != [] { ScopesAre(es[1..]); }
  }

  lemma {:induction false} RequirementsAre(cs: seq<Tree>)
    ensures |FixRequirements(cs)| == |cs|
    ensures forall i :: 0 <= i < |cs| ==> SameRequirement(cs[i], FixRequirements(cs)[i])
  {
    if cs != [] {
      RequirementsAre(cs[1..]);
      if cs[0].Mapping? { ScopesAre(cs[0].entries); }
    }
  }

  /** A list of requirements keeps every scheme of every one; anything else stays. */
  lemma SecurityBecomes(key: Tree, val: Tree, isParam: bool) returns (needs: seq<Tree>)
    requires Text(key) == "security"
    ensures val.Sequence? ==>
      && |needs| == |val.children| && (forall i :: 0 <= i < |needs| ==> SameRequirement(val.children[i], needs[i]))
      && NormalizeEntries([Entry(key, val)], isParam) == [Entry(key, Normalize(Sequence(val.tag, val.style, needs)))]
    ensures !val.Sequence? ==> NormalizeEntries([Entry(key, val)], isParam) == [Entry(key, Normalize(val))]
  {
    OneEntry(Entry(key, val), isParam);
    needs := [];
    if val.Sequence? {
      needs := FixRequirements(val.children);
      RequirementsAre(val.children);
    }
  }

  // ---- tags ----------------------------------------------------------------------------

  predicate IsNameOrDescription(e: Entry) {
    Text(e.key) in ["name", "description"]
  }

  function Itself<T>(x: T): T {
    x
  }

  /** The entries with these two keys in their order, and no other. */
  ghost predicate NameAndDescription(was: seq<Entry>, now: seq<Entry>) {
    exists kept: seq<nat> :: Picks(kept, was, IsNameOrDescription) && MadeOf(now, kept, was, Itself)
  }

  lemma {:induction false} TagFieldsAre(es: seq<Entry>) returns (kept: seq<nat>)
    ensures Picks(kept, es, IsNameOrDescription) && MadeOf(TagFields(es), kept, es, Itself)
  {
    kept := [];
    if es != [] {
      kept := TagFieldsAre(es[1..]);
      kept := PickHead(TagFields(es[1..]), kept, es, IsNameOrDescription, Itself);
    }
  }

  predicate HoldsMapping(e: Entry) {
    e.val.Mapping?
  }

  ghost predicate TagOf(was: Tree, tag: Tree) {
    && was.Mapping? && tag.Mapping? && tag.tag == "!!map" && tag.style == 0
    && NameAndDescription(was.entries, tag.entries)
  }

  /** One tag for each entry that is a mapping, in their order. */
  ghost predicate TagsOf(es: seq<Entry>, tags: seq<Tree>, kept: seq<nat>) {
    && Picks(kept, es, HoldsMapping) && |tags| == |kept|
    && forall k :: 0 <= k < |kept| ==> TagOf(es[kept[k]].val, tags[k])
  }

  function Reduced(e: Entry): Tree {
    if e.val.Mapping? then Mapping("!!map", 0, TagFields(e.val.entries)) else e.val
  }

  lemma {:induction false} TagObjectsPick(es: seq<Entry>) returns (kept: seq<nat>)
    ensures Picks(kept, es, HoldsMapping) && MadeOf(TagObjects(es), kept, es, Reduced)
  {
    kept := [];
    if es != [] {
      kept := TagObjectsPick(es[1..]);
      kept := PickHead(TagObjects(es[1..]), kept, es, HoldsMapping, Reduced);
    }
  }

  lemma TagObjectsAre(es: seq<Entry>) returns (kept: seq<nat>)
    ensures TagsOf(es, TagObjects(es), kept)
  {
    kept := TagObjectsPick(es);
    forall k | 0 <= k < |kept|
      ensures TagOf(es[kept[k]].val, TagObjects(es)[k])
    {
      var _ := TagFieldsAre(es[kept[k]].val.entries);
    }
  }

  /** A mapping of tags becomes the list of its tags, each with its name and description; a list stays. */
  lemma TagsBecome(key: Tree, val: Tree, isParam: bool) returns (tags: seq<Tree>, kept: seq<nat>)
    requires Text(key) == "tags"
    ensures val.Mapping? ==>
      && TagsOf(val.entries, tags, kept)
      && NormalizeEntries([Entry(key, val)], isParam) == [Entry(key, Normalize(Sequence("!!seq", 0, tags)))]
    ensures !val.Mapping? ==> NormalizeEntries([Entry(key, val)], isParam) == [Entry(key, Normalize(val))]
  {
    OneEntry(Entry(key, val), isParam);
    tags, kept := [], [];
    if val.Mapping? {
      tags := TagObjects(val.entries);
      kept := TagObjectsAre(val.entries);
    }
  }

  // ---- additionalProperties, and every other key --------------------------------------------

  /** An inline schema means any value. */
  lemma AdditionalPropertiesBecome(key: Tree, val: Tree, isParam: bool)
    requires Text(key) == "additionalProperties"
    ensures NormalizeEntries([Entry(key, val)], isParam) ==
      [Entry(key, if val.Mapping? then Scalar("!!bool", "true", 0) else Normalize(val))]
  {
    OneEntry(Entry(key, val), isParam);
  }

  /** Under any other key the value is rewritten where it stands. */
  lemma OtherKeysStay(key: Tree, val: Tree, isParam: bool)
    requires Text(key) !in ["type", "required", "properties", "oneOf", "anyOf", "allOf", "enum", "security", "tags",
                            "paths", "additionalProperties"]
    ensures NormalizeEntries([Entry(key, val)], isParam) == [Entry(key, Normalize(val))]
  {
    OneEntry(Entry(key, val), isParam);
  }

  // ---- paths -----------------------------------------------------------------------------

  /** A required string parameter in the path: its four fields, read off by their keys. */
  predicate RequiredInPath(p: Tree, name: string) {
    && p.Mapping? && |p.entries| == 4
    && (match MapValue(p.entries, "in") case Some(v) => v.Scalar? && v.value == "path" case None => false)
    && (match MapValue(p.entries, "name") case Some(v) => v.Scalar? && v.value == name case None => false)
    && MapValue(p.entries, "required") == Some(Scalar("!!bool", "true", 0))
    && (match MapValue(p.entries, "schema")
        case Some(v) =>
          && v.Mapping? && |v.entries| == 1
          && (match MapValue(v.entries, "type") case Some(t) => t.Scalar? && t.value == "string" case None => false)
        case None => false)
  }

  lemma PathParamIs(name: string)
    ensures RequiredInPath(PathParam(name), name)
  {
    var es := PathParam(name).entries;
    assert es[1..][0] == es[1] && es[1..][1..][0] == es[2] && es[1..][1..][1..][0] == es[3];
    assert MapValue(es, "name") == MapValue(es[1..], "name");
    assert MapValue(es, "required") == MapValue(es[1..], "required") == MapValue(es[1..][1..], "required");
    assert MapValue(es, "schema") == MapValue(es[1..], "schema") == MapValue(es[1..][1..], "schema")
        == MapValue(es[1..][1..][1..], "schema");
  }

  /** A list of required path parameters of these names, in this order. */
  predicate ParametersFor(ps: seq<Tree>, names: seq<string>) {
    |ps| == |names| && forall i :: 0 <= i < |ps| ==> RequiredInPath(ps[i], names[i])
  }

  lemma {:induction false} PathParamsAre(names: seq<string>)
    ensures ParametersFor(PathParams(names), names)
  {
    if names != [] {
      PathParamIs(names[0]);
      PathParamsAre(names[1..]);
    }
  }

  /** The first entry of that key is at `p`. */
  predicate FirstKey(es: seq<Entry>, key: string, p: nat) {
    p < |es| && Text(es[p].key) == key && forall j :: 0 <= j < p ==> Text(es[j].key) != key
  }

  /** The parameters stand behind those of the list at `p`; anything else there is replaced. */
  predicate AddedAt(was: seq<Entry>, now: seq<Entry>, added: seq<Tree>, p: nat) {
    && FirstKey(was, "parameters", p)
    && now == was[p := Entry(was[p].key,
                             if was[p].val.Sequence?
                             then Sequence(was[p].val.tag, was[p].val.style, was[p].val.children + added)
                             else Sequence("!!seq", 0, added))]
  }

  /** The parameters stand in the item's first `parameters` entry, or in a new last one. */
  ghost predicate ParametersAdded(was: seq<Entry>, now: seq<Entry>, added: seq<Tree>) {
    if exists p: nat :: FirstKey(was, "parameters", p) then
      exists p: nat :: AddedAt(was, now, added, p)
    else now == was + [Entry(Scalar("!!str", "parameters", 0), Sequence("!!seq", 0, added))]
  }

  lemma FirstKeyBelow(es: seq<Entry>, key: string, p: nat)
    requires es != [] && Text(es[0].key) != key
    ensures FirstKey(es, key, p + 1) <==> FirstKey(es[1..], key, p)
  {
    assert forall j :: 0 < j < |es| ==> es[j] == es[1..][j - 1];
  }

  lemma AddedAtBelow(was: seq<Entry>, now: seq<Entry>, added: seq<Tree>, p: nat)
    requires was != [] && Text(was[0].key) != "parameters" && AddedAt(was[1..], now, added, p)
    ensures AddedAt(was, [was[0]] + now, added, p + 1)
  {
    FirstKeyBelow(was, "parameters", p);
    assert was[1..][p] == was[p + 1];
  }

  lemma AddedBelow(was: seq<Entry>, now: seq<Entry>, added: seq<Tree>)
    requires was != [] && Text(was[0].key) != "parameters" && ParametersAdded(was[1..], now, added)
    ensures ParametersAdded(was, [was[0]] + now, added)
  {
    if q: nat :| FirstKey(was, "parameters", q) {
      FirstKeyBelow(was, "parameters", q - 1);
      var p: nat :| AddedAt(was[1..], now, added, p);
      AddedAtBelow(was, now, added, p);
    } else {
      forall p: nat
        ensures FirstKey(was[1..], "parameters", p) ==> FirstKey(was, "parameters", p + 1)
      {
        FirstKeyBelow(was, "parameters", p);
      }
      assert was == [was[0]] + was[1..];
    }
  }

  lemma {:induction false} InjectAdds(item: seq<Entry>, names: seq<string>)
    ensures ParametersAdded(item, Inject(item, names), PathParams(names))
  {
    if item == [] {
      assert forall p: nat :: !FirstKey(item, "parameters", p);
    } else if Name(item[0]) == "parameters" {
      assert FirstKey(item, "parameters", 0);
      assert [] + PathParams(names) == PathParams(names);
      assert AddedAt(item, Inject(item, names), PathParams(names), 0);
    } else {
      InjectAdds(item[1..], names);
      AddedBelow(item, Inject(item[1..], names), PathParams(names));
    }
  }

  /** The last entry of that key has this text. */
  ghost predicate LastReads(es: seq<Entry>, key: string, text: string) {
    exists i :: 0 <= i < |es| && Text(es[i].key) == key && Text(es[i].val) == text
                && forall j :: i < j < |es| ==> Text(es[j].key) != key
  }

  /** A parameter object whose last word is that it is in the path under this name. */
  ghost predicate Declares(p: Tree, name: string) {
    p.Mapping? && name != "" && LastReads(p.entries, "in", "path") && LastReads(p.entries, "name", name)
  }

  lemma {:induction false} LastTextIff(es: seq<Entry>, key: string, found: string, text: string)
    ensures LastText(es, key, found) == text <==>
      LastReads(es, key, text) || (found == text && forall i :: 0 <= i < |es| ==> Text(es[i].key) != key)
  {
    if es != [] {
      LastTextIff(es[1..], key, if Name(es[0]) == key then Text(es[0].val) else found, text);
      LastReadsBelow(es, key, text);
    }
  }

  lemma LastReadsBelow(es: seq<Entry>, key: string, text: string)
    requires es != []
    ensures LastReads(es, key, text) <==>
      || LastReads(es[1..], key, text)
      || (Text(es[0].key) == key && Text(es[0].val) == text && forall j :: 0 < j < |es| ==> Text(es[j].key) != key)
    ensures (forall i :: 0 <= i < |es[1..]| ==> Text(es[1..][i].key) != key) <==>
      forall j :: 0 < j < |es| ==> Text(es[j].key) != key
  {
    assert forall j :: 0 < j < |es| ==> es[j] == es[1..][j - 1];
    assert forall i :: 0 <= i < |es[1..]| ==> es[1..][i] == es[i + 1];
  }

  lemma DeclaredByIff(p: Tree, name: string)
    ensures name in DeclaredBy(p) <==> Declares(p, name)
  {
    if p.Mapping? {
      LastTextIff(p.entries, "in", "", "path");
      LastTextIff(p.entries, "name", "", LastText(p.entries, "name", ""));
      LastTextIff(p.entries, "name", "", name);
    }
  }

  /** Some `parameters` list of the item, or of one of its eight kinds of operation, declares the path parameter. */
  ghost predicate DeclaresIn(t: Option<Tree>, name: string) {
    t.Some? && t.value.Sequence? && exists p :: p in t.value.children && Declares(p, name)
  }

  ghost predicate DeclaresBelow(es: seq<Entry>, name: string) {
    exists e :: e in es && Text(e.key) in ["get", "put", "post", "delete", "options", "head", "patch", "trace"]
                && e.val.Mapping? && DeclaresIn(MapValue(e.val.entries, "parameters"), name)
  }

  lemma {:induction false} DeclaredByAllIff(cs: seq<Tree>, name: string)
    ensures name in DeclaredByAll(cs) <==> exists p :: p in cs && Declares(p, name)
  {
    if cs != [] {
      DeclaredByIff(cs[0], name);
      DeclaredByAllIff(cs[1..], name);
      assert cs == [cs[0]] + cs[1..];
    }
  }

  lemma DeclaredInIff(t: Option<Tree>, name: string)
    ensures name in DeclaredIn(t) <==> DeclaresIn(t, name)
  {
    if t.Some? && t.value.Sequence? { DeclaredByAllIff(t.value.children, name); }
  }

  lemma {:induction false} DeclaredByOperationsIff(es: seq<Entry>, name: string)
    ensures name in DeclaredByOperations(es) <==> DeclaresBelow(es, name)
  {
    if es != [] {
      DeclaredByOperationsIff(es[1..], name);
      DeclaredInIff(ValueIn(es[0].val, "parameters"), name);
      assert es == [es[0]] + es[1..];
    }
  }

  /** What the item declares: a path parameter of its own list or of an operation's. */
  lemma DeclaredIff(item: seq<Entry>, name: string)
    ensures name in Declared(item) <==>
      DeclaresIn(MapValue(item, "parameters"), name) || DeclaresBelow(item, name)
  {
    DeclaredInIff(MapValue(item, "parameters"), name);
    DeclaredByOperationsIff(item, name);
  }

  /** The undeclared placeholders of the template, in its order. */
  ghost predicate Undeclared(tmpl: string, item: seq<Entry>, names: seq<string>, kept: seq<nat>) {
    && Picks(kept, Placeholders(tmpl), NotIn(Declared(item)))
    && MadeOf(names, kept, Placeholders(tmpl), Itself)
  }

  function NotIn(declared: set<string>): string -> bool {
    n => n !in declared
  }

  lemma {:induction false} MissingPicks(names: seq<string>, declared: set<string>) returns (kept: seq<nat>)
    ensures Picks(kept, names, NotIn(declared)) && MadeOf(Missing(names, declared), kept, names, Itself)
  {
    kept := [];
    if names != [] {
      kept := MissingPicks(names[1..], declared);
      kept := PickHead(Missing(names[1..], declared), kept, names, NotIn(declared), Itself);
    }
  }

  /** A path item gets a parameter for every undeclared placeholder, and is otherwise as it was. */
  lemma ItemBecomes(tmpl: string, item: Tree) returns (names: seq<string>, kept: seq<nat>, added: seq<Tree>)
    ensures !item.Mapping? ==> FixItem(tmpl, item) == item
    ensures item.Mapping? ==>
      && Undeclared(tmpl, item.entries, names, kept) && ParametersFor(added, names)
      && FixItem(tmpl, item).Mapping? && FixItem(tmpl, item).tag == item.tag && FixItem(tmpl, item).style == item.style
      && if names == [] then FixItem(tmpl, item) == item
         else ParametersAdded(item.entries, FixItem(tmpl, item).entries, added)
  {
    names, kept, added := [], [], [];
    if item.Mapping? {
      var declared := Declared(item.entries);
      names, added := Missing(Placeholders(tmpl), declared), PathParams(Missing(Placeholders(tmpl), declared));
      kept := MissingPicks(Placeholders(tmpl), declared);
      PathParamsAre(names);
      InjectAdds(item.entries, names);
    }
  }

  lemma {:induction false} PathEntriesAre(es: seq<Entry>)
    ensures |FixPathEntries(es)| == |es|
    ensures forall i :: 0 <= i < |es| ==> FixPathEntries(es)[i] == Entry(es[i].key, FixItem(Text(es[i].key), es[i].val))
  {
    if es != [] { PathEntriesAre(es[1..]); }
  }

  /** Each path of a `paths` mapping stays in its place, its item repaired for its own template. */
  lemma PathsBecome(key: Tree, val: Tree, isParam: bool) returns (items: seq<Entry>)
    requires Text(key) == "paths"
    ensures val.Mapping? ==>
      && |items| == |val.entries|
      && (forall i :: 0 <= i < |items| ==>
            items[i] == Entry(val.entries[i].key, FixItem(Text(val.entries[i].key), val.entries[i].val)))
      && NormalizeEntries([Entry(key, val)], isParam) == [Entry(key, Normalize(Mapping(val.tag, val.style, items)))]
    ensures !val.Mapping? ==> NormalizeEntries([Entry(key, val)], isParam) == [Entry(key, Normalize(val))]
  {
    OneEntry(Entry(key, val), isParam);
    items := [];
    if val.Mapping? {
      items := FixPathEntries(val.entries);
      PathEntriesAre(val.entries);
    }
  }

  // ---- the type of an enumeration -----------------------------------------------------------

  predicate Digits(s: string) {
    s != "" && forall i :: 0 <= i < |s| ==> '0' <= s[i] <= '9'
  }

  /** A sign or none, and decimal digits. */
  ghost predicate SpellsInteger(s: string) {
    exists digits: string :: Digits(digits) && (s == digits || s == "+" + digits || s == "-" + digits)
  }

  lemma IntegerLiteralIff(s: string)
    ensures IntegerLiteral(s) <==> SpellsInteger(s)
  {
    if IntegerLiteral(s) {
      var digits := if s[0] == '+' || s[0] == '-' then s[1..] else s;
      assert Digits(digits);
      assert s == digits || s == [s[0]] + digits;
    }
    if digits: string :| Digits(digits) && (s == digits || s == "+" + digits || s == "-" + digits) {
      assert s != digits ==> s[1..] == digits;
      assert '0' <= digits[0] <= '9';
    }
  }

  /** A mapping whose entries were rewritten has an enumeration that decides its type. */
  predicate ScalarList(t: Option<Tree>) {
    && t.Some? && t.value.Sequence? && t.value.children != []
    && forall i :: 0 <= i < |t.value.children| ==> t.value.children[i].Scalar?
  }

  /**
    Where the output enumerates scalars its type says what they are: integers if every one of them
    spells an integer, and strings otherwise.
   */
  lemma EnumDecidesType(t: Tree)
    requires t.Mapping? && Normalize(t).Mapping? && ScalarList(MapValue(Normalize(t).entries, "enum"))
    ensures var members := MapValue(Normalize(t).entries, "enum").value.children;
      var said := MapValue(Normalize(t).entries, "type");
      && said.Some? && said.value.Scalar?
      && said.value.value == if forall i :: 0 <= i < |members| ==> SpellsInteger(Text(members[i]))
                             then "integer" else "string"
  {
    var walked := NormalizeEntries(t.entries, IsParam(t.entries));
    ReconcileKeepsOthers(walked, "enum", "");
    var members := MapValue(walked, "enum").value.children;
    SetTypeTypes(walked, WantedType(members));
    forall i | 0 <= i < |members|
      ensures IntegerLiteral(Text(members[i])) <==> SpellsInteger(Text(members[i]))
    {
      IntegerLiteralIff(Text(members[i]));
    }
  }

  /** The entries under any other key than `type`, in order. */
  function Untyped(es: seq<Entry>): seq<Entry> {
    if es == [] then [] else (if Text(es[0].key) == "type" then [] else [es[0]]) + Untyped(es[1..])
  }

  lemma {:induction false} SetTypeKeepsUntyped(es: seq<Entry>, want: string)
    ensures Untyped(SetType(es, want)) == Untyped(es)
  {
    var out := SetType(es, want);
    if es == [] {
      assert out[1..] == [];
    } else if Name(es[0]) == "type" {
      assert out[1..] == es[1..];
    } else {
      SetTypeKeepsUntyped(es[1..], want);
      assert out[1..] == SetType(es[1..], want);
    }
  }

  lemma {:induction false} HasKeyIff(es: seq<Entry>, key: string)
    ensures HasKey(es, key) <==> exists i :: 0 <= i < |es| && Text(es[i].key) == key
  {
    if es != [] {
      HasKeyIff(es[1..], key);
      assert forall j :: 0 < j < |es| ==> es[j] == es[1..][j - 1];
      assert forall i :: 0 <= i < |es[1..]| ==> es[1..][i] == es[i + 1];
    }
  }

  /** A mapping is read as a parameter exactly if it has both these keys. */
  lemma IsParamIff(es: seq<Entry>)
    ensures IsParam(es) <==>
      && (exists i :: 0 <= i < |es| && Text(es[i].key) == "in")
      && (exists i :: 0 <= i < |es| && Text(es[i].key) == "name")
  {
    HasKeyIff(es, "in");
    HasKeyIff(es, "name");
  }

  /** A mapping's own entries are what each of its entries becomes, up to the type an enumeration decides. */
  lemma MappingBecomes(t: Tree)
    requires t.Mapping?
    ensures var es, walked := t.entries, NormalizeEntries(t.entries, IsParam(t.entries));
      && Normalize(t).Mapping? && Normalize(t).tag == t.tag && Normalize(t).style == t.style
      && Untyped(Normalize(t).entries) == Untyped(walked)
      && (!ScalarList(MapValue(walked, "enum")) ==> Normalize(t).entries == walked)
  {
    var walked := NormalizeEntries(t.entries, IsParam(t.entries));
    var members := DecidingEnum(walked);
    if members.Some? { SetTypeKeepsUntyped(walked, WantedType(members.value)); }
  }
}
