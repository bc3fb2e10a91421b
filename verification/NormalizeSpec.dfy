/**
  The rewrite that turns the frozen document into one a code generator accepts,
  as a function on trees: each keyword's fix, then the walk that applies them.
 */
module NormalizeSpec {
  import opened Prelude
  import opened YamlTree

  // ---- type ------------------------------------------------------------------

  predicate ValidType(token: string) {
    token in ["string", "number", "integer", "boolean", "array", "object"]
  }

  function TypeCanon(token: string): Option<string> {
    if token == "bool" then Some("boolean")
    else if token in ["double", "real", "float"] then Some("number")
    else if token == "int" then Some("integer")
    else None
  }

  /** None means the entry is dropped; so for every fix that may drop. */
  function FixType(val: Tree): Option<Tree> {
    if !val.Scalar? || val.tag == "!!null" || val.value == "" then None
    else if ValidType(val.value) then Some(val)
    else match TypeCanon(val.value)
         case Some(canon) => Some(Scalar("!!str", canon, 0))
         case None => None
  }

  // ---- required --------------------------------------------------------------

  function FixRequired(val: Tree, isParam: bool): Option<Tree> {
    if isParam then
      if val.Scalar? && (val.value == "true" || val.value == "false") then Some(Scalar("!!bool", val.value, 0))
      else if val.Scalar? && val.tag == "!!bool" then Some(val)
      else Some(Scalar("!!bool", "false", 0))
    else if val.Sequence? then Some(val)
    else None
  }

  // ---- properties ------------------------------------------------------------

  predicate IdentChar(c: char) {
    'a' <= c <= 'z' || 'A' <= c <= 'Z' || '0' <= c <= '9'
  }

  predicate HasIdentChar(s: string) {
    exists i :: 0 <= i < |s| && IdentChar(s[i])
  }

  const EMPTY_MAPPING := Mapping("!!map", 0, [])

  function FixPropertyEntries(es: seq<Entry>): seq<Entry> {
    if es == [] then []
    else
      (if !HasIdentChar(Name(es[0])) then []
       else [Entry(es[0].key, if es[0].val.Scalar? then EMPTY_MAPPING else es[0].val)])
      + FixPropertyEntries(es[1..])
  }

  function FixProperties(val: Tree): Tree {
    if val.Mapping? then val.(entries := FixPropertyEntries(val.entries)) else val
  }

  // ---- composition, enum, security, tags, additionalProperties -----------------

  function FixComposition(val: Tree): Tree {
    if val.Mapping? then Sequence("!!seq", 0, [val]) else val
  }

  predicate AllScalars(cs: seq<Tree>) {
    forall i :: 0 <= i < |cs| ==> cs[i].Scalar?
  }

  function FixEnum(val: Tree): Option<Tree> {
    if val.Scalar? then Some(Sequence("!!seq", 0, [val]))
    else if val.Sequence? && !AllScalars(val.children) then None
    else Some(val)
  }

  function FixScopes(es: seq<Entry>): seq<Entry> {
    if es == [] then []
    else [Entry(es[0].key, if es[0].val.Mapping? then Sequence("!!seq", 0, []) else es[0].val)] + FixScopes(es[1..])
  }

  function FixRequirements(cs: seq<Tree>): seq<Tree> {
    if cs == [] then []
    else [if cs[0].Mapping? then cs[0].(entries := FixScopes(cs[0].entries)) else cs[0]] + FixRequirements(cs[1..])
  }

  function FixSecurity(val: Tree): Tree {
    if val.Sequence? then val.(children := FixRequirements(val.children)) else val
  }

  function TagFields(es: seq<Entry>): seq<Entry> {
    if es == [] then []
    else (if Name(es[0]) == "name" || Name(es[0]) == "description" then [es[0]] else []) + TagFields(es[1..])
  }

  function TagObjects(es: seq<Entry>): seq<Tree> {
    if es == [] then []
    else (if es[0].val.Mapping? then [Mapping("!!map", 0, TagFields(es[0].val.entries))] else []) + TagObjects(es[1..])
  }

  function FixTags(val: Tree): Tree {
    if val.Mapping? then Sequence("!!seq", 0, TagObjects(val.entries)) else val
  }

  function FixAdditionalProperties(val: Tree): Tree {
    if val.Mapping? then Scalar("!!bool", "true", 0) else val
  }

  // ---- paths -----------------------------------------------------------------

  /** The index of the first `c`, or the length. */
  function IndexOf(s: string, c: char): (i: nat)
    ensures i <= |s|
    ensures i < |s| ==> s[i] == c
    ensures forall j :: 0 <= j < i ==> s[j] != c
  {
    if s == [] || s[0] == c then 0 else 1 + IndexOf(s[1..], c)
  }

  /** Every placeholder of a template, empty and repeated ones included. */
  function RawPlaceholders(tmpl: string): seq<string>
    decreases |tmpl|
  {
    var start := IndexOf(tmpl, '{');
    if start == |tmpl| then []
    else
      var body := tmpl[start + 1..];
      var end := IndexOf(body, '}');
      if end == |body| then [] else [body[..end]] + RawPlaceholders(body[end + 1..])
  }

  /** The non-empty names not seen before, first occurrences in order. */
  function Distinct(names: seq<string>, seen: seq<string>): seq<string>
    decreases |names|
  {
    if names == [] then []
    else if names[0] == "" || names[0] in seen then Distinct(names[1..], seen)
    else [names[0]] + Distinct(names[1..], seen + [names[0]])
  }

  function Placeholders(tmpl: string): seq<string> {
    Distinct(RawPlaceholders(tmpl), [])
  }

  /** The text of the last entry with this key, or `found` when there is none. */
  function LastText(es: seq<Entry>, key: string, found: string): string {
    if es == [] then found
    else LastText(es[1..], key, if Name(es[0]) == key then Text(es[0].val) else found)
  }

  /** The path parameter a parameter object declares. */
  function DeclaredBy(p: Tree): set<string> {
    if p.Mapping? && LastText(p.entries, "in", "") == "path" && LastText(p.entries, "name", "") != ""
    then {LastText(p.entries, "name", "")} else {}
  }

  function DeclaredByAll(cs: seq<Tree>): set<string> {
    if cs == [] then {} else DeclaredBy(cs[0]) + DeclaredByAll(cs[1..])
  }

  function DeclaredIn(params: Option<Tree>): set<string> {
    if params.Some? && params.value.Sequence? then DeclaredByAll(params.value.children) else {}
  }

  predicate HttpMethod(key: string) {
    key in ["get", "put", "post", "delete", "options", "head", "patch", "trace"]
  }

  function ValueIn(t: Tree, key: string): Option<Tree> {
    if t.Mapping? then MapValue(t.entries, key) else None
  }

  function DeclaredByOperation(e: Entry): set<string> {
    if HttpMethod(Name(e)) then DeclaredIn(ValueIn(e.val, "parameters")) else {}
  }

  function DeclaredByOperations(es: seq<Entry>): set<string> {
    if es == [] then {} else DeclaredByOperation(es[0]) + DeclaredByOperations(es[1..])
  }

  /** The path parameters declared at path-item level or in some operation. */
  function Declared(item: seq<Entry>): set<string> {
    DeclaredIn(MapValue(item, "parameters")) + DeclaredByOperations(item)
  }

  function Missing(names: seq<string>, declared: set<string>): seq<string> {
    if names == [] then []
    else (if names[0] in declared then [] else [names[0]]) + Missing(names[1..], declared)
  }

  function Str(value: string): Tree {
    Scalar("!!str", value, 0)
  }

  /** A minimal required in:path string parameter. */
  function PathParam(name: string): Tree {
    Mapping("!!map", 0,
            [Entry(Str("in"), Str("path")),
             Entry(Str("name"), Str(name)),
             Entry(Str("required"), Scalar("!!bool", "true", 0)),
             Entry(Str("schema"), Mapping("!!map", 0, [Entry(Str("type"), Str("string"))]))])
  }

  function PathParams(names: seq<string>): seq<Tree> {
    if names == [] then [] else [PathParam(names[0])] + PathParams(names[1..])
  }

  /** The parameter sequence of a path item; anything that is not a sequence is replaced. */
  function AsParameters(t: Tree): Tree {
    if t.Sequence? then t else Sequence("!!seq", 0, [])
  }

  /** The item's parameters with these names injected, the entry created when absent. */
  function Inject(item: seq<Entry>, names: seq<string>): seq<Entry> {
    if item == [] then [Entry(Str("parameters"), Sequence("!!seq", 0, PathParams(names)))]
    else if Name(item[0]) == "parameters" then
      var ps := AsParameters(item[0].val);
      [item[0].(val := ps.(children := ps.children + PathParams(names)))] + item[1..]
    else [item[0]] + Inject(item[1..], names)
  }

  function FixItem(tmpl: string, item: Tree): Tree {
    if !item.Mapping? then item
    else
      var missing := Missing(Placeholders(tmpl), Declared(item.entries));
      if missing == [] then item else item.(entries := Inject(item.entries, missing))
  }

  function FixPathEntries(es: seq<Entry>): seq<Entry> {
    if es == [] then []
    else [es[0].(val := FixItem(Name(es[0]), es[0].val))] + FixPathEntries(es[1..])
  }

  function FixPaths(val: Tree): Tree {
    if val.Mapping? then val.(entries := FixPathEntries(val.entries)) else val
  }

  // ---- enum and type agree ------------------------------------------------------

  predicate Digit(c: char) {
    '0' <= c <= '9'
  }

  predicate AllDigits(digits: string) {
    digits != "" && forall i :: 0 <= i < |digits| ==> Digit(digits[i])
  }

  predicate IntegerLiteral(s: string) {
    AllDigits(if s != "" && (s[0] == '+' || s[0] == '-') then s[1..] else s)
  }

  function WantedType(members: seq<Tree>): string {
    if forall i :: 0 <= i < |members| ==> IntegerLiteral(Text(members[i])) then "integer" else "string"
  }

  /** Makes the first `type` entry say `want`, or appends one at the end. */
  function SetType(es: seq<Entry>, want: string): seq<Entry> {
    if es == [] then [Entry(Str("type"), Str(want))]
    else if Name(es[0]) == "type" then
      (if es[0].val.Scalar? && es[0].val.value == want then es else [es[0].(val := Str(want))] + es[1..])
    else [es[0]] + SetType(es[1..], want)
  }

  /** The enumeration that decides the type of a mapping. */
  function DecidingEnum(es: seq<Entry>): Option<seq<Tree>> {
    match MapValue(es, "enum")
    case None => None
    case Some(enum) =>
      if enum.Sequence? && enum.children != [] && AllScalars(enum.children) then Some(enum.children) else None
  }

  function Reconcile(es: seq<Entry>): seq<Entry> {
    match DecidingEnum(es)
    case None => es
    case Some(members) => SetType(es, WantedType(members))
  }

  // ---- the walk -----------------------------------------------------------------

  /** The keys the walk treats specially, wherever they stand. */
  datatype Keyword =
    Type | Required | Properties | Composition | Enum | Security | Tags | Paths | AdditionalProperties | Plain

  function KeywordOf(name: string): Keyword {
    if name == "type" then Type
    else if name == "required" then Required
    else if name == "properties" then Properties
    else if name == "oneOf" || name == "anyOf" || name == "allOf" then Composition
    else if name == "enum" then Enum
    else if name == "security" then Security
    else if name == "tags" then Tags
    else if name == "paths" then Paths
    else if name == "additionalProperties" then AdditionalProperties
    else Plain
  }

  /** The fix of one entry, by its keyword; None drops the entry. */
  function FixAs(keyword: Keyword, val: Tree, isParam: bool): Option<Tree> {
    match keyword
    case Type => FixType(val)
    case Required => FixRequired(val, isParam)
    case Properties => Some(FixProperties(val))
    case Composition => Some(FixComposition(val))
    case Enum => FixEnum(val)
    case Security => Some(FixSecurity(val))
    case Tags => Some(FixTags(val))
    case Paths => Some(FixPaths(val))
    case AdditionalProperties => Some(FixAdditionalProperties(val))
    case Plain => Some(val)
  }

  function Fix(e: Entry, isParam: bool): Option<Tree> {
    FixAs(KeywordOf(Name(e)), e.val, isParam)
  }

  /** A mapping with both keys is read as a parameter object, wherever it stands. */
  predicate IsParam(es: seq<Entry>) {
    HasKey(es, "in") && HasKey(es, "name")
  }

  function Normalize(t: Tree): Tree
    decreases PathsIn(t), Depth(t), if t.Mapping? then 2 else 0, 0
  {
    match t
    case Document(cs) => Document(NormalizeAll(cs))
    case Sequence(tag, style, cs) => Sequence(tag, style, NormalizeAll(cs))
    case Mapping(tag, style, es) => Mapping(tag, style, Reconcile(NormalizeEntries(es, IsParam(es))))
    case _ => t
  }

  function NormalizeAll(cs: seq<Tree>): seq<Tree>
    decreases PathsInAll(cs), DepthAll(cs), 3, |cs|
  {
    if cs == [] then [] else [Normalize(cs[0])] + NormalizeAll(cs[1..])
  }

  function NormalizeEntries(es: seq<Entry>, isParam: bool): seq<Entry>
    decreases PathsInEntries(es), DepthEntries(es) + 1, 1, |es|
  {
    if es == [] then []
    else
      HeadEntry(es);
      var rest := NormalizeEntries(es[1..], isParam);
      match Fix(es[0], isParam)
      case None => rest
      case Some(w) =>
        FixDescends(KeywordOf(Name(es[0])), es[0].val, isParam);
        [Entry(es[0].key, Normalize(w))] + rest
  }

  // ---- why the walk ends ----------------------------------------------------------

  /** `w` may be walked in place of `val`: no more `paths` to meet, and no deeper unless wrapped once. */
  predicate Descends(w: Tree, val: Tree) {
    PathsIn(w) <= PathsIn(val) && (Depth(w) <= Depth(val) || (w.Sequence? && Depth(w) <= Depth(val) + 1))
  }

  lemma WrapDescends(val: Tree)
    ensures Descends(Sequence("!!seq", 0, [val]), val)
  {
    ConsAll(val, []);
    assert [val] + [] == [val];
  }

  lemma {:induction false} PropertiesDescend(es: seq<Entry>)
    ensures PathsInEntries(FixPropertyEntries(es)) <= PathsInEntries(es)
    ensures DepthEntries(FixPropertyEntries(es)) <= DepthEntries(es)
  {
    if es != [] {
      HeadEntry(es);
      PropertiesDescend(es[1..]);
      var rest := FixPropertyEntries(es[1..]);
      ConsEntries(Entry(es[0].key, if es[0].val.Scalar? then EMPTY_MAPPING else es[0].val), rest);
      assert [] + rest == rest;
    }
  }

  lemma {:induction false} ScopesDescend(es: seq<Entry>)
    ensures PathsInEntries(FixScopes(es)) <= PathsInEntries(es)
    ensures DepthEntries(FixScopes(es)) <= DepthEntries(es)
  {
    if es != [] {
      HeadEntry(es);
      ScopesDescend(es[1..]);
      ConsEntries(Entry(es[0].key, if es[0].val.Mapping? then Sequence("!!seq", 0, []) else es[0].val),
                  FixScopes(es[1..]));
    }
  }

  lemma {:induction false} SecurityDescends(cs: seq<Tree>)
    ensures PathsInAll(FixRequirements(cs)) <= PathsInAll(cs)
    ensures DepthAll(FixRequirements(cs)) <= DepthAll(cs)
  {
    if cs != [] {
      SecurityDescends(cs[1..]);
      if cs[0].Mapping? { ScopesDescend(cs[0].entries); }
      ConsAll(if cs[0].Mapping? then cs[0].(entries := FixScopes(cs[0].entries)) else cs[0], FixRequirements(cs[1..]));
    }
  }

  lemma {:induction false} FieldsDescend(es: seq<Entry>)
    ensures PathsInEntries(TagFields(es)) <= PathsInEntries(es)
    ensures DepthEntries(TagFields(es)) <= DepthEntries(es)
  {
    if es != [] {
      HeadEntry(es);
      FieldsDescend(es[1..]);
      ConsEntries(es[0], TagFields(es[1..]));
      assert [] + TagFields(es[1..]) == TagFields(es[1..]);
    }
  }

  lemma {:induction false} TagsDescend(es: seq<Entry>)
    ensures PathsInAll(TagObjects(es)) <= PathsInEntries(es)
    ensures DepthAll(TagObjects(es)) <= DepthEntries(es)
  {
    if es != [] {
      HeadEntry(es);
      TagsDescend(es[1..]);
      var rest := TagObjects(es[1..]);
      assert [] + rest == rest;
      if es[0].val.Mapping? {
        FieldsDescend(es[0].val.entries);
        ConsAll(Mapping("!!map", 0, TagFields(es[0].val.entries)), rest);
      }
    }
  }

  /** An injected parameter holds nothing named `paths`. */
  lemma PathParamHasNoPaths(name: string)
    ensures PathsIn(PathParam(name)) == 0
  {
    NoPathsInEntries([Entry(Str("type"), Str("string"))]);
    NoPathsInEntries(PathParam(name).entries);
  }

  lemma {:induction false} PathParamsHaveNoPaths(names: seq<string>)
    ensures PathsInAll(PathParams(names)) == 0
  {
    if names != [] {
      PathParamsHaveNoPaths(names[1..]);
      PathParamHasNoPaths(names[0]);
      ConsAll(PathParam(names[0]), PathParams(names[1..]));
    }
  }

  lemma {:induction false} InjectDoesNotGrow(item: seq<Entry>, names: seq<string>)
    ensures PathsInEntries(Inject(item, names)) <= PathsInEntries(item)
  {
    PathParamsHaveNoPaths(names);
    if item == [] {
      ConsEntries(Entry(Str("parameters"), Sequence("!!seq", 0, PathParams(names))), []);
      assert Inject(item, names) + [] == Inject(item, names);
    } else if Name(item[0]) == "parameters" {
      HeadEntry(item);
      var ps := AsParameters(item[0].val);
      PathsInAllConcat(ps.children, PathParams(names));
      ConsEntries(item[0].(val := ps.(children := ps.children + PathParams(names))), item[1..]);
    } else {
      HeadEntry(item);
      InjectDoesNotGrow(item[1..], names);
      ConsEntries(item[0], Inject(item[1..], names));
    }
  }

  lemma {:induction false} PathsDoNotGrow(es: seq<Entry>)
    ensures PathsInEntries(FixPathEntries(es)) <= PathsInEntries(es)
  {
    if es != [] {
      HeadEntry(es);
      PathsDoNotGrow(es[1..]);
      var item := es[0].val;
      if item.Mapping? { InjectDoesNotGrow(item.entries, Missing(Placeholders(Name(es[0])), Declared(item.entries))); }
      ConsEntries(es[0].(val := FixItem(Name(es[0]), item)), FixPathEntries(es[1..]));
    }
  }

  /** Every fix descends, except that injecting parameters may deepen: there a `paths` entry is spent. */
  lemma FixDescends(keyword: Keyword, val: Tree, isParam: bool)
    ensures FixAs(keyword, val, isParam).Some? ==>
      var w := FixAs(keyword, val, isParam).value;
      if keyword == Paths then PathsIn(w) <= PathsIn(val) else Descends(w, val)
  {
    match keyword
    case Properties => if val.Mapping? { PropertiesDescend(val.entries); }
    case Composition => WrapDescends(val);
    case Enum => WrapDescends(val);
    case Security => if val.Sequence? { SecurityDescends(val.children); }
    case Tags => if val.Mapping? { TagsDescend(val.entries); }
    case Paths => if val.Mapping? { PathsDoNotGrow(val.entries); }
    case _ =>
  }
}
