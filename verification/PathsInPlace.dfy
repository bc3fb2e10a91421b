/**
  The path templates: the scanners that read them, the readers that collect what is
  declared, and the injection of what is missing into the nodes of a path item.
 */
module PathsInPlace {
  import opened Prelude
  import opened YamlTree
  import opened YamlNode
  import opened FixInPlace
  import Paths = NormalizePaths
  import Spec = NormalizeSpec

  // ---- scanning a template ----------------------------------------------------------------------

  /** The index of the first c, or -1. */
  method IndexByte(s: string, c: char) returns (i: int)
    ensures i == if Spec.IndexOf(s, c) == |s| then -1 else Spec.IndexOf(s, c)
  {
    i := 0;
    while i < |s|
      invariant 0 <= i <= |s| && forall j :: 0 <= j < i ==> s[j] != c
    {
      if s[i] == c {
        return i;
      }
      i := i + 1;
    }
    return -1;
  }

  lemma FromBrace(tmpl: string, start: nat)
    requires start < |tmpl| && tmpl[start] == '{'
    ensures Spec.IndexOf(tmpl[start..], '}') == 1 + Spec.IndexOf(tmpl[start + 1..], '}')
  {
    assert tmpl[start..][1..] == tmpl[start + 1..];
  }

  lemma SlicesOfBody(tmpl: string, start: nat, end: nat)
    requires start < start + end < |tmpl|
    ensures tmpl[start + 1..][..end - 1] == tmpl[start + 1..start + end]
    ensures tmpl[start + 1..][end..] == tmpl[start + end + 1..]
  {
  }

  lemma NoPlaceholder(tmpl: string, start: nat)
    requires start == Spec.IndexOf(tmpl, '{')
    requires start == |tmpl| || Spec.IndexOf(tmpl[start..], '}') == |tmpl| - start
    ensures Spec.RawPlaceholders(tmpl) == []
  {
    if start < |tmpl| {
      FromBrace(tmpl, start);
    }
  }

  lemma FirstPlaceholder(tmpl: string, start: nat, body: string, end: nat)
    requires Paths.FirstIs(tmpl, '{', start) && body == tmpl[start + 1..] && Paths.FirstIs(body, '}', end)
    ensures Spec.RawPlaceholders(tmpl) == [body[..end]] + Spec.RawPlaceholders(body[end + 1..])
  {
    Paths.CutFirst(tmpl, start, body, end);
    Paths.ScanPiece(Paths.Piece(tmpl[..start], body[..end]), body[end + 1..]);
  }

  /** Where the first brace pair of a template opens, and where it closes after that. */
  method FindBraces(tmpl: string) returns (found: bool, start: int, end: int)
    ensures found ==> 0 <= start && 0 < end && start + end < |tmpl|
    ensures found ==> Paths.FirstIs(tmpl, '{', start) && Paths.FirstIs(tmpl[start + 1..], '}', end - 1)
    ensures !found ==> Spec.RawPlaceholders(tmpl) == []
  {
    end := -1;
    start := IndexByte(tmpl, '{');
    if start < 0 {
      NoPlaceholder(tmpl, |tmpl|);
      return false, start, end;
    }
    end := IndexByte(tmpl[start..], '}');
    if end < 0 {
      NoPlaceholder(tmpl, start);
      return false, start, end;
    }
    FromBrace(tmpl, start);
    return true, start, end;
  }

  lemma PlaceholderAt(tmpl: string, start: nat, end: nat, name: string, rest: string)
    requires 0 < end && start + end < |tmpl|
    requires Paths.FirstIs(tmpl, '{', start) && Paths.FirstIs(tmpl[start + 1..], '}', end - 1)
    requires name == tmpl[start + 1..start + end] && rest == tmpl[start + end + 1..]
    ensures Spec.RawPlaceholders(tmpl) == [name] + Spec.RawPlaceholders(rest)
  {
    var body := tmpl[start + 1..];
    SlicesOfBody(tmpl, start, end);
    FirstPlaceholder(tmpl, start, body, end - 1);
  }

  /** What the loop has found, and what the names still to come will add. */
  predicate Scanned(out: seq<string>, names: seq<string>, all: seq<string>) {
    out + Spec.Distinct(names, out) == all
  }

  lemma ScanStep(name: string, more: seq<string>, out: seq<string>, all: seq<string>)
    requires Scanned(out, [name] + more, all)
    ensures Scanned(if name != "" && name !in out then out + [name] else out, more, all)
  {
    assert ([name] + more)[1..] == more;
    if name != "" && name !in out {
      assert out + ([name] + Spec.Distinct(more, out + [name])) == (out + [name]) + Spec.Distinct(more, out + [name]);
    }
  }

  lemma ScanEnds(out: seq<string>, all: seq<string>)
    requires Scanned(out, [], all)
    ensures out == all
  {
  }

  /** The distinct non-empty names, in the order their braces close. */
  method PathPlaceholders(template: string) returns (out: seq<string>)
    ensures out == Spec.Placeholders(template)
  {
    out := [];
    var seen: set<string> := {};
    var tmpl := template;
    ghost var names := Spec.RawPlaceholders(tmpl);
    ghost var all := Spec.Placeholders(template);
    while true
      invariant forall n :: n in seen <==> n in out
      invariant names == Spec.RawPlaceholders(tmpl)
      invariant Scanned(out, names, all)
      decreases |tmpl|
    {
      var found, start, end := FindBraces(tmpl);
      if !found {
        ScanEnds(out, all);
        return;
      }
      var name := tmpl[start + 1..start + end];
      PlaceholderAt(tmpl, start, end, name, tmpl[start + end + 1..]);
      tmpl := tmpl[start + end + 1..];
      names := Spec.RawPlaceholders(tmpl);
      ScanStep(name, names, out, all);
      if name != "" && name !in seen {
        seen := seen + {name};
        out := out + [name];
      }
    }
  }

  // ---- reading a mapping ----------------------------------------------------------------------------

  /** The value node of the first entry with this key, and its position; null when there is none. */
  method MapValue(m: Node, key: string) returns (v: Node?, at: nat)
    requires m.Valid()
    ensures v == null <==> Spec.ValueIn(m.Tree(), key).None?
    ensures v != null ==> v.Valid() && v.repr <= m.repr - {m} && Some(v.Tree()) == Spec.ValueIn(m.Tree(), key)
    ensures v != null ==> m.kind == MappingNode && 2 * at + 1 < |m.content| && v == m.content[2 * at + 1]
    ensures v != null ==> EntryAt(Pairs(m.kids), key, at) && Pairs(m.kids)[at].val == v.Tree()
  {
    at := 0;
    if m.kind != MappingNode {
      return null, 0;
    }
    ghost var es := Pairs(m.kids);
    for i := 0 to |m.content| / 2
      invariant YamlTree.MapValue(es, key) == YamlTree.MapValue(es[i..], key)
      invariant forall j :: 0 <= j < i ==> Name(es[j]) != key
    {
      ForestAt(m.content, m.kids, m.repr - {m}, 2 * i);
      TextIsValue(m.content[2 * i]);
      if m.content[2 * i].value == key {
        ForestAt(m.content, m.kids, m.repr - {m}, 2 * i + 1);
        return m.content[2 * i + 1], i;
      }
      assert es[i..][1..] == es[i + 1..];
    }
    return null, 0;
  }

  /** The first entry with this key stands at this position. */
  predicate EntryAt(es: seq<Entry>, key: string, at: nat) {
    at < |es| && Name(es[at]) == key && forall j :: 0 <= j < at ==> Name(es[j]) != key
  }

  /** Every one of these keys is there. */
  method MappingHasKeys(m: Node, keys: seq<string>) returns (all: bool)
    requires m.Valid() && m.kind == MappingNode
    ensures all <==> forall k :: 0 <= k < |keys| ==> HasKey(Pairs(m.kids), keys[k])
  {
    for k := 0 to |keys|
      invariant forall j :: 0 <= j < k ==> HasKey(Pairs(m.kids), keys[j])
    {
      var v, at;
      v, at := MapValue(m, keys[k]);
      if v == null {
        return false;
      }
    }
    return true;
  }

  // ---- what is declared --------------------------------------------------------------------------------

  lemma LastTextStep(es: seq<Entry>, i: nat, key: string, found: string)
    requires i < |es|
    ensures Spec.LastText(es[i..], key, found) ==
      Spec.LastText(es[i + 1..], key, if Name(es[i]) == key then Text(es[i].val) else found)
  {
    assert es[i..][1..] == es[i + 1..];
  }

  /** The text of a key and of its value. */
  method FieldAt(nodes: seq<Node>, j: nat, ghost ts: seq<Tree>, ghost owned: set<Node>)
      returns (key: string, text: string)
    requires Forest(nodes, ts, owned) && 2 * j + 1 < |nodes|
    ensures j < |Pairs(ts)| && key == Name(Pairs(ts)[j]) && text == Text(Pairs(ts)[j].val)
  {
    ForestAt(nodes, ts, owned, 2 * j);
    ForestAt(nodes, ts, owned, 2 * j + 1);
    TextIsValue(nodes[2 * j]);
    TextIsValue(nodes[2 * j + 1]);
    key, text := nodes[2 * j].value, nodes[2 * j + 1].value;
  }

  /** The last `in` and the last `name` of a parameter object. */
  method LastFields(nodes: seq<Node>, ghost ts: seq<Tree>, ghost owned: set<Node>) returns (place: string, name: string)
    requires Forest(nodes, ts, owned)
    ensures place == Spec.LastText(Pairs(ts), "in", "") && name == Spec.LastText(Pairs(ts), "name", "")
  {
    ghost var es := Pairs(ts);
    place, name := "", "";
    assert es[0..] == es;
    for j := 0 to |nodes| / 2
      invariant Spec.LastText(es, "in", "") == Spec.LastText(es[j..], "in", place)
      invariant Spec.LastText(es, "name", "") == Spec.LastText(es[j..], "name", name)
    {
      var key, text := FieldAt(nodes, j, ts, owned);
      LastTextStep(es, j, "in", place);
      LastTextStep(es, j, "name", name);
      if key == "in" {
        place := text;
      } else if key == "name" {
        name := text;
      }
    }
  }

  /** The path parameter a parameter object declares; empty when it declares none. */
  method DeclaredName(p: Node) returns (name: string)
    requires p.Valid()
    ensures Spec.DeclaredBy(p.Tree()) == if name == "" then {} else {name}
  {
    if p.kind != MappingNode {
      return "";
    }
    var place;
    place, name := LastFields(p.content, p.kids, p.repr - {p});
    if place != "path" {
      name := "";
    }
  }

  lemma DeclaredStep(ts: seq<Tree>, i: nat)
    requires i < |ts|
    ensures Spec.DeclaredByAll(ts[i..]) == Spec.DeclaredBy(ts[i]) + Spec.DeclaredByAll(ts[i + 1..])
  {
    assert ts[i..][1..] == ts[i + 1..];
  }

  /** Adds the path parameters of a parameter list; anything but a sequence adds none. */
  method Collect(params: Node?, declared: set<string>) returns (out: set<string>)
    requires params != null ==> params.Valid()
    ensures out == declared + Spec.DeclaredIn(if params == null then None else Some(params.Tree()))
  {
    out := declared;
    if params == null || params.kind != SequenceNode {
      return;
    }
    ghost var ts := params.kids;
    for i := 0 to |params.content|
      invariant out + Spec.DeclaredByAll(ts[i..]) == declared + Spec.DeclaredByAll(ts)
    {
      ForestAt(params.content, ts, params.repr - {params}, i);
      DeclaredStep(ts, i);
      var name := DeclaredName(params.content[i]);
      if name != "" {
        out := out + {name};
      }
    }
  }

  /** What the first j entries of an item declare in their operations. */
  function DeclaredUpTo(es: seq<Entry>, j: nat): set<string>
    requires j <= |es|
  {
    if j == 0 then {} else DeclaredUpTo(es, j - 1) + Spec.DeclaredByOperation(es[j - 1])
  }

  lemma {:induction false} DeclaredSplit(es: seq<Entry>, j: nat)
    requires j <= |es|
    ensures DeclaredUpTo(es, j) + Spec.DeclaredByOperations(es[j..]) == Spec.DeclaredByOperations(es)
  {
    if j == 0 {
      assert es[0..] == es;
    } else {
      DeclaredSplit(es, j - 1);
      assert es[j - 1..][1..] == es[j..];
    }
  }

  /** The parameters of one operation. */
  method CollectOperation(key: Node, operation: Node, declared: set<string>) returns (out: set<string>)
    requires key.Valid() && operation.Valid()
    ensures out == declared + Spec.DeclaredByOperation(Entry(key.Tree(), operation.Tree()))
  {
    out := declared;
    TextIsValue(key);
    if Spec.HttpMethod(key.value) {
      var v, at;
      v, at := MapValue(operation, "parameters");
      out := Collect(v, declared);
    }
  }

  method CollectOperationAt(nodes: seq<Node>, j: nat, ghost ts: seq<Tree>, ghost owned: set<Node>,
                            declared: set<string>)
      returns (out: set<string>)
    requires Forest(nodes, ts, owned) && 2 * j + 1 < |nodes|
    ensures j < |Pairs(ts)| && out == declared + Spec.DeclaredByOperation(Pairs(ts)[j])
  {
    ForestAt(nodes, ts, owned, 2 * j);
    ForestAt(nodes, ts, owned, 2 * j + 1);
    out := CollectOperation(nodes[2 * j], nodes[2 * j + 1], declared);
  }

  /** What has been collected: what was given, and what the first j entries declare. */
  predicate CollectedTo(out: set<string>, given: set<string>, es: seq<Entry>, j: nat) {
    j <= |es| && out == given + DeclaredUpTo(es, j)
  }

  lemma CollectStep(out: set<string>, given: set<string>, es: seq<Entry>, j: nat)
    requires j < |es| && CollectedTo(out, given, es, j)
    ensures CollectedTo(out + Spec.DeclaredByOperation(es[j]), given, es, j + 1)
  {
  }

  lemma CollectStart(given: set<string>, es: seq<Entry>)
    ensures CollectedTo(given, given, es, 0)
  {
  }

  /** The parameters of every operation among the children of an item. */
  method CollectOperations(nodes: seq<Node>, ghost ts: seq<Tree>, ghost owned: set<Node>, declared: set<string>)
      returns (out: set<string>)
    requires Forest(nodes, ts, owned)
    ensures CollectedTo(out, declared, Pairs(ts), |nodes| / 2)
  {
    out := declared;
    ghost var es := Pairs(ts);
    CollectStart(declared, es);
    for j := 0 to |nodes| / 2
      invariant CollectedTo(out, declared, es, j)
    {
      CollectStep(out, declared, es, j);
      out := CollectOperationAt(nodes, j, ts, owned, out);
    }
  }

  /** The path parameters declared by the item itself or by an operation of it. */
  method DeclaredPathParams(item: Node) returns (out: set<string>)
    requires item.Valid() && item.kind == MappingNode
    ensures out == Spec.Declared(Pairs(item.kids))
  {
    var v, at;
    v, at := MapValue(item, "parameters");
    out := Collect(v, {});
    out := CollectOperations(item.content, item.kids, item.repr - {item}, out);
    DeclaredSplit(Pairs(item.kids), |item.content| / 2);
  }

  /** What has been found, and what the names from here on will add. */
  predicate MissingFrom(missing: seq<string>, names: seq<string>, i: nat, declared: set<string>)
    requires i <= |names|
  {
    missing + Spec.Missing(names[i..], declared) == Spec.Missing(names, declared)
  }

  lemma MissingStep(missing: seq<string>, names: seq<string>, i: nat, declared: set<string>)
    requires i < |names| && MissingFrom(missing, names, i, declared)
    ensures MissingFrom(if names[i] in declared then missing else missing + [names[i]], names, i + 1, declared)
  {
    assert names[i..][1..] == names[i + 1..];
    var rest := Spec.Missing(names[i + 1..], declared);
    if names[i] in declared {
      assert [] + rest == rest;
    } else {
      assert missing + ([names[i]] + rest) == (missing + [names[i]]) + rest;
    }
  }

  lemma MissingEnds(missing: seq<string>, names: seq<string>, declared: set<string>)
    ensures MissingFrom([], names, 0, declared)
    ensures MissingFrom(missing, names, |names|, declared) ==> missing == Spec.Missing(names, declared)
  {
    assert names[0..] == names && names[|names|..] == [];
    assert missing + [] == missing;
  }

  method MissingNames(names: seq<string>, declared: set<string>) returns (missing: seq<string>)
    ensures missing == Spec.Missing(names, declared)
  {
    missing := [];
    MissingEnds(missing, names, declared);
    for i := 0 to |names|
      invariant MissingFrom(missing, names, i, declared)
    {
      MissingStep(missing, names, i, declared);
      if names[i] !in declared {
        missing := missing + [names[i]];
      }
    }
    MissingEnds(missing, names, declared);
  }

  // ---- injecting what is missing --------------------------------------------------------------------------

  method NewScalar(tag: string, value: string) returns (n: Node)
    ensures fresh(n) && n.Valid() && n.repr == {n} && n.Tree() == Scalar(tag, value, 0)
  {
    n := NewNode(ScalarNode, tag, value, 0, [], [], {});
  }

  /** A new key with this value joins the children of a mapping in the making. */
  method WithField(made: seq<Node>, ghost mt: seq<Tree>, ghost mo: set<Node>, key: string, v: Node)
      returns (more: seq<Node>, ghost mo2: set<Node>)
    requires Forest(made, mt, mo) && v.Valid() && mo !! v.repr
    ensures Forest(more, mt + [Spec.Str(key), v.Tree()], mo2) && |more| == |made| + 2
    ensures fresh(mo2 - mo - v.repr)
  {
    var k := NewScalar("!!str", key);
    KeepPair(made, mt, mo, k, v);
    more, mo2 := made + [k, v], mo + k.repr + v.repr;
  }

  method WithScalar(made: seq<Node>, ghost mt: seq<Tree>, ghost mo: set<Node>, key: string, tag: string, value: string)
      returns (more: seq<Node>, ghost mo2: set<Node>)
    requires Forest(made, mt, mo)
    ensures Forest(more, mt + [Spec.Str(key), Scalar(tag, value, 0)], mo2) && |more| == |made| + 2
    ensures fresh(mo2 - mo)
  {
    var v := NewScalar(tag, value);
    more, mo2 := WithField(made, mt, mo, key, v);
  }

  method SchemaNode() returns (n: Node)
    ensures fresh(n.repr) && n.Valid() && n.Tree() == Mapping("!!map", 0, [Entry(Spec.Str("type"), Spec.Str("string"))])
  {
    var made; ghost var mo;
    made, mo := WithScalar([], [], {}, "type", "!!str", "string");
    n := NewNode(MappingNode, "!!map", "", 0, made, [] + [Spec.Str("type"), Spec.Str("string")], mo);
  }

  function PlaceAndName(name: string): seq<Tree> {
    [] + [Spec.Str("in"), Spec.Str("path")] + [Spec.Str("name"), Spec.Str(name)]
  }

  method NewPlaceAndName(name: string) returns (made: seq<Node>, ghost mo: set<Node>)
    ensures Forest(made, PlaceAndName(name), mo) && |made| == 4 && fresh(mo)
  {
    made, mo := WithScalar([], [], {}, "in", "!!str", "path");
    made, mo := WithScalar(made, [] + [Spec.Str("in"), Spec.Str("path")], mo, "name", "!!str", name);
  }

  function ThreeFields(name: string): seq<Tree> {
    PlaceAndName(name) + [Spec.Str("required"), Scalar("!!bool", "true", 0)]
  }

  function ParamFields(name: string): seq<Tree> {
    ThreeFields(name) + [Spec.Str("schema"), Mapping("!!map", 0, [Entry(Spec.Str("type"), Spec.Str("string"))])]
  }

  lemma FieldsOfParam(name: string)
    ensures Mapping("!!map", 0, Pairs(ParamFields(name))) == Spec.PathParam(name)
  {
  }

  method NewThreeFields(name: string) returns (made: seq<Node>, ghost mo: set<Node>)
    ensures Forest(made, ThreeFields(name), mo) && |made| == 6 && fresh(mo)
  {
    made, mo := NewPlaceAndName(name);
    made, mo := WithScalar(made, PlaceAndName(name), mo, "required", "!!bool", "true");
  }

  method NewParamFields(name: string) returns (made: seq<Node>, ghost mo: set<Node>)
    ensures Forest(made, ParamFields(name), mo) && |made| == 8 && fresh(mo)
  {
    var schema := SchemaNode();
    made, mo := NewThreeFields(name);
    made, mo := WithField(made, ThreeFields(name), mo, "schema", schema);
  }

  /** A minimal required string parameter of this name, in new nodes. */
  method PathParamNode(name: string) returns (n: Node)
    ensures fresh(n.repr) && n.Valid() && n.Tree() == Spec.PathParam(name)
  {
    var made; ghost var mo;
    made, mo := NewParamFields(name);
    n := NewNode(MappingNode, "!!map", "", 0, made, ParamFields(name), mo);
    FieldsOfParam(name);
  }

  lemma ParamsStep(names: seq<string>, i: nat)
    requires i < |names|
    ensures Spec.PathParams(names[..i + 1]) == Spec.PathParams(names[..i]) + [Spec.PathParam(names[i])]
  {
    ParamsConcat(names[..i], [names[i]]);
    assert names[..i + 1] == names[..i] + [names[i]];
  }

  lemma {:induction false} ParamsConcat(a: seq<string>, b: seq<string>)
    ensures Spec.PathParams(a + b) == Spec.PathParams(a) + Spec.PathParams(b)
    decreases |a|
  {
    if a == [] {
      assert a + b == b;
    } else {
      assert (a + b)[1..] == a[1..] + b;
      ParamsConcat(a[1..], b);
    }
  }

  method AppendParam(params: Node, name: string)
    requires params.Valid() && params.kind == SequenceNode
    modifies params
    ensures params.Valid() && fresh(params.repr - old(params.repr)) && params.kind == SequenceNode
    ensures params.tag == old(params.tag) && params.style == old(params.style)
    ensures params.kids == old(params.kids) + [Spec.PathParam(name)]
  {
    ghost var owned := params.repr - {params};
    var n := PathParamNode(name);
    ForestOfOne(n);
    JoinForest(params.content, params.kids, owned, [n], [n.Tree()], n.repr);
    params.content := params.content + [n];
    params.Seal(params.kids + [n.Tree()], owned + n.repr);
  }

  method AppendParams(params: Node, names: seq<string>)
    requires params.Valid() && params.kind == SequenceNode
    modifies params
    ensures params.Valid() && fresh(params.repr - old(params.repr)) && params.kind == SequenceNode
    ensures params.tag == old(params.tag) && params.style == old(params.style)
    ensures params.kids == old(params.kids) + Spec.PathParams(names)
  {
    for i := 0 to |names|
      invariant params.Valid() && fresh(params.repr - old(params.repr)) && params.kind == SequenceNode
      invariant params.tag == old(params.tag) && params.style == old(params.style)
      invariant params.kids == old(params.kids) + Spec.PathParams(names[..i])
    {
      ParamsStep(names, i);
      AppendParam(params, names[i]);
    }
    assert names[..|names|] == names;
  }

  /** The entries of an item once it has a parameter sequence, at this position. */
  function WithParameters(es: seq<Entry>, at: nat): (ws: seq<Entry>)
    requires at <= |es|
    ensures at < |ws| && ws[at].val.Sequence?
  {
    if at < |es| then es[at := Entry(es[at].key, Spec.AsParameters(es[at].val))]
    else es + [Entry(Spec.Str("parameters"), Sequence("!!seq", 0, []))]
  }

  /** Where the parameters of an item are, or will be. */
  predicate ParametersAt(es: seq<Entry>, at: nat) {
    if at < |es| then EntryAt(es, "parameters", at) else at == |es| && !HasKey(es, "parameters")
  }

  lemma {:induction false} InjectVia(es: seq<Entry>, names: seq<string>, at: nat)
    requires ParametersAt(es, at)
    ensures var ws := WithParameters(es, at);
      Spec.Inject(es, names) ==
        ws[at := Entry(ws[at].key, ws[at].val.(children := ws[at].val.children + Spec.PathParams(names)))]
    decreases |es|
  {
    if es == [] {
      assert [] + Spec.PathParams(names) == Spec.PathParams(names);
    } else if at > 0 {
      assert EntryAt(es, "parameters", at) ==> Name(es[0]) != "parameters";
      InjectVia(es[1..], names, at - 1);
      assert es == [es[0]] + es[1..];
    }
  }

  // ---- the parameters of an item ----------------------------------------------------------------------------

  /** A new parameter sequence at the end of an item that has none. */
  method AddParameters(item: Node)
    requires item.Valid() && item.kind == MappingNode
    modifies item
    ensures item.Valid() && fresh(item.repr - old(item.repr)) && item.kind == MappingNode
    ensures item.tag == old(item.tag) && item.style == old(item.style)
    ensures |item.content| == |old(item.content)| + 2
    ensures item.kids == old(item.kids) + [Spec.Str("parameters"), Sequence("!!seq", 0, [])]
  {
    ghost var ts, owned := item.kids, item.repr - {item};
    var sequence := NewNode(SequenceNode, "!!seq", "", 0, [], [], {});
    var more; ghost var mo;
    more, mo := WithField(item.content, ts, owned, "parameters", sequence);
    item.Fill(more, ts + [Spec.Str("parameters"), sequence.Tree()], mo);
  }

  /** The node is emptied unless it is a sequence. */
  method MakeSequence(p: Node)
    requires p.Valid()
    modifies p.repr
    ensures p.Valid() && fresh(p.repr - old(p.repr)) && p.Tree() == Spec.AsParameters(old(p.Tree()))
  {
    if p.kind != SequenceNode {
      p.Overwrite(SequenceNode, "!!seq", "", 0, [], [], {});
    }
  }

  /** One child between two forests that stand as before. */
  method MakeSequenceBetween(p: Node, ghost a: seq<Node>, ghost ta: seq<Tree>, ghost oa: set<Node>,
                             ghost b: seq<Node>, ghost tb: seq<Tree>, ghost ob: set<Node>)
    requires p.Valid() && Forest(a, ta, oa) && Forest(b, tb, ob) && oa !! p.repr && ob !! p.repr
    modifies p.repr
    ensures p.Valid() && fresh(p.repr - old(p.repr)) && Forest(a, ta, oa) && Forest(b, tb, ob)
    ensures p.Tree() == Spec.AsParameters(old(p.Tree()))
  {
    MakeSequence(p);
  }

  method MakeSequenceAt(nodes: seq<Node>, k: nat, ghost ts: seq<Tree>, ghost owned: set<Node>)
      returns (ghost more: set<Node>)
    requires Forest(nodes, ts, owned) && k < |nodes|
    modifies owned
    ensures Forest(nodes, ts[k := Spec.AsParameters(ts[k])], more)
    ensures forall n :: n in more && n !in owned ==> fresh(n)
  {
    ghost var left, right := OpenAt(nodes, ts, owned, k);
    MakeSequenceBetween(nodes[k], nodes[..k], ts[..k], left, nodes[k + 1..], ts[k + 1..], right);
    CloseAt(nodes, ts, k, left, right);
    more := left + nodes[k].repr + right;
  }

  /** The child at this position is emptied unless it is a sequence. */
  method SequenceAt(item: Node, k: nat)
    requires item.Valid() && item.kind == MappingNode && k < |item.content|
    modifies item.repr
    ensures item.Valid() && fresh(item.repr - old(item.repr)) && item.kind == MappingNode
    ensures item.tag == old(item.tag) && item.style == old(item.style) && item.content == old(item.content)
    ensures k < |old(item.kids)| && item.kids == old(item.kids)[k := Spec.AsParameters(old(item.kids)[k])]
  {
    ghost var ts := item.kids;
    ghost var more := MakeSequenceAt(item.content, k, ts, item.repr - {item});
    item.Seal(ts[k := Spec.AsParameters(ts[k])], more);
  }

  lemma PairsUpdated(ts: seq<Tree>, at: nat, v: Tree)
    requires 2 * at + 1 < |ts|
    ensures Pairs(ts[2 * at + 1 := v]) == Pairs(ts)[at := Entry(Pairs(ts)[at].key, v)]
  {
  }

  /**
    The position of the parameter sequence: of the one there, made a sequence if it is none, or of a
    new one at the end.
   */
  method ItemParameters(item: Node) returns (at: nat)
    requires item.Valid() && item.kind == MappingNode
    modifies item.repr
    ensures item.Valid() && fresh(item.repr - old(item.repr)) && item.kind == MappingNode
    ensures item.tag == old(item.tag) && item.style == old(item.style)
    ensures ParametersAt(Pairs(old(item.kids)), at) && Pairs(item.kids) == WithParameters(Pairs(old(item.kids)), at)
    ensures 2 * at + 1 < |item.content|
  {
    ghost var ts := item.kids;
    var p;
    p, at := MapValue(item, "parameters");
    if p != null {
      SequenceAt(item, 2 * at + 1);
      PairsUpdated(ts, at, Spec.AsParameters(ts[2 * at + 1]));
    } else {
      at := |item.content| / 2;
      AddParameters(item);
      PairsConcat(ts, [Spec.Str("parameters"), Sequence("!!seq", 0, [])]);
    }
  }

  function Grown(p: Tree, names: seq<string>): Tree {
    if p.Sequence? then p.(children := p.children + Spec.PathParams(names)) else p
  }

  /** One parameter sequence between two forests that stand as before. */
  method GrowBetween(params: Node, names: seq<string>, ghost a: seq<Node>, ghost ta: seq<Tree>, ghost oa: set<Node>,
                     ghost b: seq<Node>, ghost tb: seq<Tree>, ghost ob: set<Node>)
    requires params.Valid() && params.kind == SequenceNode && Forest(a, ta, oa) && Forest(b, tb, ob)
      && oa !! params.repr && ob !! params.repr
    modifies params.repr
    ensures params.Valid() && fresh(params.repr - old(params.repr)) && Forest(a, ta, oa) && Forest(b, tb, ob)
    ensures params.Tree() == Grown(old(params.Tree()), names)
  {
    AppendParams(params, names);
  }

  method GrowAt(nodes: seq<Node>, k: nat, names: seq<string>, ghost ts: seq<Tree>, ghost owned: set<Node>)
      returns (ghost more: set<Node>)
    requires Forest(nodes, ts, owned) && k < |nodes| && ts[k].Sequence?
    modifies owned
    ensures Forest(nodes, ts[k := Grown(ts[k], names)], more)
    ensures forall n :: n in more && n !in owned ==> fresh(n)
  {
    ghost var left, right := OpenAt(nodes, ts, owned, k);
    GrowBetween(nodes[k], names, nodes[..k], ts[..k], left, nodes[k + 1..], ts[k + 1..], right);
    CloseAt(nodes, ts, k, left, right);
    more := left + nodes[k].repr + right;
  }

  /** The parameter sequence at this position grows by these parameters. */
  method InjectAt(item: Node, k: nat, names: seq<string>)
    requires item.Valid() && item.kind == MappingNode && k < |item.content| == |item.kids| && item.kids[k].Sequence?
    modifies item.repr
    ensures item.Valid() && fresh(item.repr - old(item.repr)) && item.kind == MappingNode
    ensures item.tag == old(item.tag) && item.style == old(item.style)
    ensures item.kids == old(item.kids)[k := Grown(old(item.kids)[k], names)]
  {
    ghost var ts := item.kids;
    ghost var more := GrowAt(item.content, k, names, ts, item.repr - {item});
    item.Seal(ts[k := Grown(ts[k], names)], more);
  }

  method InjectParameters(item: Node, names: seq<string>)
    requires item.Valid() && item.kind == MappingNode
    modifies item.repr
    ensures item.Valid() && fresh(item.repr - old(item.repr)) && item.kind == MappingNode
    ensures item.tag == old(item.tag) && item.style == old(item.style)
    ensures Pairs(item.kids) == Spec.Inject(Pairs(old(item.kids)), names)
  {
    ghost var es := Pairs(item.kids);
    var at := ItemParameters(item);
    ghost var ws := item.kids;
    InjectVia(es, names, at);
    InjectAt(item, 2 * at + 1, names);
    PairsUpdated(ws, at, item.kids[2 * at + 1]);
  }

  /** One path item: what its template names and nothing declares is injected. */
  method FixItem(tmpl: string, item: Node)
    requires item.Valid()
    modifies item.repr
    ensures item.Valid() && fresh(item.repr - old(item.repr))
    ensures item.Tree() == Spec.FixItem(tmpl, old(item.Tree()))
  {
    if item.kind != MappingNode {
      return;
    }
    var placeholders := PathPlaceholders(tmpl);
    if |placeholders| == 0 {
      return;
    }
    var declared := DeclaredPathParams(item);
    var missing := MissingNames(placeholders, declared);
    if |missing| == 0 {
      return;
    }
    InjectParameters(item, missing);
  }

  // ---- every item ------------------------------------------------------------------------------------------------

  /** The fix of the i-th item, by the text of its key. */
  function FixNamed(names: seq<string>): (nat, Tree) -> Tree {
    (i: nat, t: Tree) => if i < |names| then Spec.FixItem(names[i], t) else t
  }

  function KeyTexts(es: seq<Entry>): seq<string> {
    seq(|es|, i requires 0 <= i < |es| => Name(es[i]))
  }

  lemma {:induction false} ItemsPointwise(es: seq<Entry>, fixed: seq<Entry>)
    requires |fixed| == |es|
    requires forall k :: 0 <= k < |es| ==> fixed[k] == Entry(es[k].key, Spec.FixItem(Name(es[k]), es[k].val))
    ensures fixed == Spec.FixPathEntries(es)
  {
    if es != [] {
      ItemsPointwise(es[1..], fixed[1..]);
      assert fixed == [fixed[0]] + fixed[1..];
    }
  }

  lemma EachIsFixPathEntries(ts: seq<Tree>)
    ensures Pairs(EachValue(ts, FixNamed(KeyTexts(Pairs(ts))), |ts| / 2)) == Spec.FixPathEntries(Pairs(ts))
  {
    var f := FixNamed(KeyTexts(Pairs(ts)));
    var fixed := Pairs(EachValue(ts, f, |ts| / 2));
    forall k | 0 <= k < |fixed|
      ensures fixed[k] == Entry(Pairs(ts)[k].key, Spec.FixItem(Name(Pairs(ts)[k]), Pairs(ts)[k].val))
    {
      EachPair(ts, f, k);
    }
    ItemsPointwise(Pairs(ts), fixed);
  }

  /** One item between two forests that stand as before. */
  method FixItemBetween(tmpl: string, item: Node, ghost a: seq<Node>, ghost ta: seq<Tree>, ghost oa: set<Node>,
                        ghost b: seq<Node>, ghost tb: seq<Tree>, ghost ob: set<Node>)
    requires item.Valid() && Forest(a, ta, oa) && Forest(b, tb, ob)
    requires oa !! item.repr && ob !! item.repr
    modifies item.repr
    ensures item.Valid() && fresh(item.repr - old(item.repr)) && Forest(a, ta, oa) && Forest(b, tb, ob)
    ensures item.Tree() == Spec.FixItem(tmpl, old(item.Tree()))
  {
    FixItem(tmpl, item);
  }

  method FixItemAt(nodes: seq<Node>, k: nat, tmpl: string, ghost ts: seq<Tree>, ghost owned: set<Node>)
      returns (ghost more: set<Node>)
    requires Forest(nodes, ts, owned) && k < |nodes|
    modifies owned
    ensures Forest(nodes, ts[k := Spec.FixItem(tmpl, ts[k])], more)
    ensures forall n :: n in more && n !in owned ==> fresh(n)
  {
    ghost var left, right := OpenAt(nodes, ts, owned, k);
    FixItemBetween(tmpl, nodes[k], nodes[..k], ts[..k], left, nodes[k + 1..], ts[k + 1..], right);
    CloseAt(nodes, ts, k, left, right);
    more := left + nodes[k].repr + right;
  }

  /** The i-th item, fixed by the text of its key. */
  method FixItemOf(nodes: seq<Node>, i: nat, ghost ts: seq<Tree>, ghost f: (nat, Tree) -> Tree, ghost owned: set<Node>)
      returns (ghost more: set<Node>)
    requires |ts| == |nodes| && 2 * i + 1 < |nodes| && f == FixNamed(KeyTexts(Pairs(ts)))
    requires Forest(nodes, EachValue(ts, f, i), owned)
    modifies owned
    ensures Forest(nodes, EachValue(ts, f, i + 1), more)
    ensures forall n :: n in more && n !in owned ==> fresh(n)
  {
    ghost var now := EachValue(ts, f, i);
    EachValueAt(ts, f, i, i);
    ForestAt(nodes, now, owned, 2 * i);
    TextIsValue(nodes[2 * i]);
    more := FixItemAt(nodes, 2 * i + 1, nodes[2 * i].value, now, owned);
  }

  method FixItems(nodes: seq<Node>, ghost ts: seq<Tree>, ghost f: (nat, Tree) -> Tree, ghost owned: set<Node>)
      returns (ghost more: set<Node>)
    requires |ts| == |nodes| && Forest(nodes, EachValue(ts, f, 0), owned) && f == FixNamed(KeyTexts(Pairs(ts)))
    modifies owned
    ensures Forest(nodes, EachValue(ts, f, |nodes| / 2), more)
    ensures forall n :: n in more && n !in owned ==> fresh(n)
  {
    more := owned;
    for i := 0 to |nodes| / 2
      invariant Forest(nodes, EachValue(ts, f, i), more)
      invariant forall n :: n in more && n !in owned ==> fresh(n)
    {
      more := FixItemOf(nodes, i, ts, f, more);
    }
  }

  method FixPaths(paths: Node)
    requires paths.Valid()
    modifies paths.repr
    ensures paths.Valid() && fresh(paths.repr - old(paths.repr))
    ensures paths.Tree() == Spec.FixPaths(old(paths.Tree()))
  {
    if paths.kind != MappingNode {
      return;
    }
    ghost var ts := paths.kids;
    ghost var f := FixNamed(KeyTexts(Pairs(ts)));
    ghost var more := FixItems(paths.content, ts, f, paths.repr - {paths});
    EachIsFixPathEntries(ts);
    paths.Seal(EachValue(ts, f, |ts| / 2), more);
  }
}
