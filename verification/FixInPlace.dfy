/**
  The fixes as they are carried out on the nodes, each shown to do to the tree what its
  function in NormalizeSpec says. A fix writes only nodes of the value it is given.
 */
module FixInPlace {
  import opened Prelude
  import opened YamlTree
  import opened YamlNode
  import Spec = NormalizeSpec

  // ---- one node -------------------------------------------------------------------------------

  method FixType(val: Node) returns (drop: bool)
    requires val.Valid()
    modifies val.repr
    ensures val.Valid() && fresh(val.repr - old(val.repr))
    ensures Spec.FixType(old(val.Tree())) == if drop then None else Some(val.Tree())
  {
    if val.kind != ScalarNode {
      return true;
    }
    if val.tag == "!!null" || val.value == "" {
      return true;
    }
    if Spec.ValidType(val.value) {
      return false;
    }
    match Spec.TypeCanon(val.value)
    case None =>
      return true;
    case Some(canon) =>
      val.value := canon;
      val.tag := "!!str";
      val.style := 0;
      return false;
  }

  method FixRequired(val: Node, isParam: bool) returns (drop: bool)
    requires val.Valid()
    modifies val.repr
    ensures val.Valid() && fresh(val.repr - old(val.repr))
    ensures Spec.FixRequired(old(val.Tree()), isParam) == if drop then None else Some(val.Tree())
  {
    if isParam {
      if val.kind == ScalarNode {
        if val.value == "true" || val.value == "false" {
          val.tag := "!!bool";
          val.style := 0;
          return false;
        }
        if val.tag == "!!bool" {
          return false;
        }
      }
      val.kind, val.tag, val.value, val.content, val.style := ScalarNode, "!!bool", "false", [], 0;
      val.Seal([], {});
      return false;
    }
    return val.kind != SequenceNode;
  }

  method FixAdditionalProperties(ap: Node)
    requires ap.Valid()
    modifies ap.repr
    ensures ap.Valid() && fresh(ap.repr - old(ap.repr))
    ensures ap.Tree() == Spec.FixAdditionalProperties(old(ap.Tree()))
  {
    if ap.kind == MappingNode {
      ap.Overwrite(ScalarNode, "!!bool", "true", 0, [], [], {});
    }
  }

  /** The node becomes a sequence whose one member is what it was. */
  method Wrap(n: Node)
    requires n.Valid()
    modifies n
    ensures n.Valid() && fresh(n.repr - old(n.repr))
    ensures n.Tree() == Sequence("!!seq", 0, [old(n.Tree())])
  {
    var inner := NewNode(n.kind, n.tag, n.value, n.style, n.content, n.kids, n.repr - {n});
    ForestOfOne(inner);
    n.Overwrite(SequenceNode, "!!seq", "", 0, [inner], [inner.Tree()], inner.repr);
  }

  method FixComposition(comp: Node)
    requires comp.Valid()
    modifies comp.repr
    ensures comp.Valid() && fresh(comp.repr - old(comp.repr))
    ensures comp.Tree() == Spec.FixComposition(old(comp.Tree()))
  {
    if comp.kind == MappingNode {
      Wrap(comp);
    }
  }

  /** All children are scalars. */
  method OnlyScalars(nodes: seq<Node>, ghost ts: seq<Tree>, ghost owned: set<Node>) returns (only: bool)
    requires Forest(nodes, ts, owned)
    ensures only == Spec.AllScalars(ts)
  {
    for i := 0 to |nodes|
      invariant forall j :: 0 <= j < i ==> ts[j].Scalar?
    {
      ForestAt(nodes, ts, owned, i);
      TextIsValue(nodes[i]);
      if nodes[i].kind != ScalarNode {
        return false;
      }
    }
    return true;
  }

  method FixEnum(enum: Node) returns (drop: bool)
    requires enum.Valid()
    modifies enum.repr
    ensures enum.Valid() && fresh(enum.repr - old(enum.repr))
    ensures Spec.FixEnum(old(enum.Tree())) == if drop then None else Some(enum.Tree())
  {
    if enum.kind == ScalarNode {
      Wrap(enum);
      return false;
    }
    if enum.kind == SequenceNode {
      var only := OnlyScalars(enum.content, enum.kids, enum.repr - {enum});
      return !only;
    }
    return false;
  }

  // ---- every child, one after the other -------------------------------------------------------------

  /** The children after the first i have been rewritten. */
  function EachOf(ts: seq<Tree>, f: Tree -> Tree, i: nat): (r: seq<Tree>)
    requires i <= |ts|
    ensures |r| == |ts|
  {
    if i == 0 then ts
    else
      var before := EachOf(ts, f, i - 1);
      before[i - 1 := f(before[i - 1])]
  }

  lemma {:induction false} EachOfAt(ts: seq<Tree>, f: Tree -> Tree, i: nat, j: nat)
    requires i <= |ts| && j < |ts|
    ensures EachOf(ts, f, i)[j] == if j < i then f(ts[j]) else ts[j]
  {
    if i > 0 {
      EachOfAt(ts, f, i - 1, j);
    }
  }

  /** The children of a mapping after the values of the first i pairs have been rewritten. */
  function EachValue(ts: seq<Tree>, f: (nat, Tree) -> Tree, i: nat): (r: seq<Tree>)
    requires 2 * i <= |ts|
    ensures |r| == |ts|
  {
    if i == 0 then ts
    else
      var before := EachValue(ts, f, i - 1);
      before[2 * i - 1 := f(i - 1, before[2 * i - 1])]
  }

  lemma {:induction false} EachValueAt(ts: seq<Tree>, f: (nat, Tree) -> Tree, i: nat, j: nat)
    requires 2 * i <= |ts| && 2 * j + 1 < |ts|
    ensures EachValue(ts, f, i)[2 * j] == ts[2 * j]
    ensures EachValue(ts, f, i)[2 * j + 1] == if j < i then f(j, ts[2 * j + 1]) else ts[2 * j + 1]
  {
    if i > 0 {
      EachValueAt(ts, f, i - 1, j);
    }
  }

  /** The pairs of a mapping with each value rewritten. */
  lemma EachPair(ts: seq<Tree>, f: (nat, Tree) -> Tree, k: nat)
    requires k < |ts| / 2
    ensures Pairs(EachValue(ts, f, |ts| / 2))[k] == Entry(Pairs(ts)[k].key, f(k, Pairs(ts)[k].val))
  {
    EachValueAt(ts, f, |ts| / 2, k);
  }

  // ---- security ----------------------------------------------------------------------------------

  function EmptiedScope(i: nat, val: Tree): Tree {
    if val.Mapping? then Sequence("!!seq", 0, []) else val
  }

  lemma {:induction false} ScopesPointwise(es: seq<Entry>, fixed: seq<Entry>)
    requires |fixed| == |es|
    requires forall k :: 0 <= k < |es| ==> fixed[k] == Entry(es[k].key, EmptiedScope(k, es[k].val))
    ensures fixed == Spec.FixScopes(es)
  {
    if es != [] {
      ScopesPointwise(es[1..], fixed[1..]);
      assert fixed == [fixed[0]] + fixed[1..];
    }
  }

  lemma ScopedIsFixScopes(ts: seq<Tree>)
    ensures Pairs(EachValue(ts, EmptiedScope, |ts| / 2)) == Spec.FixScopes(Pairs(ts))
  {
    var fixed := Pairs(EachValue(ts, EmptiedScope, |ts| / 2));
    forall k | 0 <= k < |fixed|
      ensures fixed[k] == Entry(Pairs(ts)[k].key, EmptiedScope(k, Pairs(ts)[k].val))
    {
      EachPair(ts, EmptiedScope, k);
    }
    ScopesPointwise(Pairs(ts), fixed);
  }

  method FixScope(scopes: Node, ghost i: nat)
    requires scopes.Valid()
    modifies scopes.repr
    ensures scopes.Valid() && fresh(scopes.repr - old(scopes.repr))
    ensures scopes.Tree() == EmptiedScope(i, old(scopes.Tree()))
  {
    if scopes.kind == MappingNode {
      scopes.Overwrite(SequenceNode, "!!seq", "", 0, [], [], {});
    }
  }

  /** One scope list between two forests that stand as before. */
  method FixScopeBetween(scopes: Node, ghost i: nat, ghost a: seq<Node>, ghost ta: seq<Tree>, ghost oa: set<Node>,
                         ghost b: seq<Node>, ghost tb: seq<Tree>, ghost ob: set<Node>)
    requires scopes.Valid() && Forest(a, ta, oa) && Forest(b, tb, ob) && oa !! scopes.repr && ob !! scopes.repr
    modifies scopes.repr
    ensures scopes.Valid() && fresh(scopes.repr - old(scopes.repr)) && Forest(a, ta, oa) && Forest(b, tb, ob)
    ensures scopes.Tree() == EmptiedScope(i, old(scopes.Tree()))
  {
    FixScope(scopes, i);
  }

  method FixScopeAt(nodes: seq<Node>, k: nat, ghost i: nat, ghost ts: seq<Tree>, ghost owned: set<Node>)
      returns (ghost more: set<Node>)
    requires Forest(nodes, ts, owned) && k < |nodes|
    modifies owned
    ensures Forest(nodes, ts[k := EmptiedScope(i, ts[k])], more)
    ensures forall n :: n in more && n !in owned ==> fresh(n)
  {
    ghost var left, right := OpenAt(nodes, ts, owned, k);
    FixScopeBetween(nodes[k], i, nodes[..k], ts[..k], left, nodes[k + 1..], ts[k + 1..], right);
    CloseAt(nodes, ts, k, left, right);
    more := left + nodes[k].repr + right;
  }

  /** The values of a requirement, one after the other. */
  method FixScopes(nodes: seq<Node>, ghost ts: seq<Tree>, ghost owned: set<Node>) returns (ghost more: set<Node>)
    requires Forest(nodes, ts, owned)
    modifies owned
    ensures |ts| == |nodes| && Forest(nodes, EachValue(ts, EmptiedScope, |ts| / 2), more)
    ensures forall n :: n in more && n !in owned ==> fresh(n)
  {
    more := owned;
    for i := 0 to |nodes| / 2
      invariant Forest(nodes, EachValue(ts, EmptiedScope, i), more)
      invariant forall n :: n in more && n !in owned ==> fresh(n)
    {
      more := FixScopeAt(nodes, 2 * i + 1, i, EachValue(ts, EmptiedScope, i), more);
    }
  }

  function FixedRequirement(req: Tree): Tree {
    if req.Mapping? then req.(entries := Spec.FixScopes(req.entries)) else req
  }

  lemma {:induction false} RequirementsPointwise(ts: seq<Tree>, fixed: seq<Tree>)
    requires |fixed| == |ts| && forall k :: 0 <= k < |ts| ==> fixed[k] == FixedRequirement(ts[k])
    ensures fixed == Spec.FixRequirements(ts)
  {
    if ts != [] {
      RequirementsPointwise(ts[1..], fixed[1..]);
      assert fixed == [fixed[0]] + fixed[1..];
    }
  }

  lemma EachIsFixRequirements(ts: seq<Tree>)
    ensures EachOf(ts, FixedRequirement, |ts|) == Spec.FixRequirements(ts)
  {
    forall k | 0 <= k < |ts|
      ensures EachOf(ts, FixedRequirement, |ts|)[k] == FixedRequirement(ts[k])
    {
      EachOfAt(ts, FixedRequirement, |ts|, k);
    }
    RequirementsPointwise(ts, EachOf(ts, FixedRequirement, |ts|));
  }

  method FixRequirement(req: Node)
    requires req.Valid()
    modifies req.repr
    ensures req.Valid() && fresh(req.repr - old(req.repr))
    ensures req.Tree() == FixedRequirement(old(req.Tree()))
  {
    if req.kind == MappingNode {
      ghost var ts := req.kids;
      ghost var more := FixScopes(req.content, ts, req.repr - {req});
      ScopedIsFixScopes(ts);
      req.Seal(EachValue(ts, EmptiedScope, |ts| / 2), more);
    }
  }

  /** One requirement between two forests that stand as before. */
  method FixRequirementBetween(req: Node, ghost a: seq<Node>, ghost ta: seq<Tree>, ghost oa: set<Node>,
                               ghost b: seq<Node>, ghost tb: seq<Tree>, ghost ob: set<Node>)
    requires req.Valid() && Forest(a, ta, oa) && Forest(b, tb, ob) && oa !! req.repr && ob !! req.repr
    modifies req.repr
    ensures req.Valid() && fresh(req.repr - old(req.repr)) && Forest(a, ta, oa) && Forest(b, tb, ob)
    ensures req.Tree() == FixedRequirement(old(req.Tree()))
  {
    FixRequirement(req);
  }

  method FixRequirementAt(nodes: seq<Node>, k: nat, ghost ts: seq<Tree>, ghost owned: set<Node>)
      returns (ghost more: set<Node>)
    requires Forest(nodes, ts, owned) && k < |nodes|
    modifies owned
    ensures Forest(nodes, ts[k := FixedRequirement(ts[k])], more)
    ensures forall n :: n in more && n !in owned ==> fresh(n)
  {
    ghost var left, right := OpenAt(nodes, ts, owned, k);
    FixRequirementBetween(nodes[k], nodes[..k], ts[..k], left, nodes[k + 1..], ts[k + 1..], right);
    CloseAt(nodes, ts, k, left, right);
    more := left + nodes[k].repr + right;
  }

  method FixSecurity(sec: Node)
    requires sec.Valid()
    modifies sec.repr
    ensures sec.Valid() && fresh(sec.repr - old(sec.repr))
    ensures sec.Tree() == Spec.FixSecurity(old(sec.Tree()))
  {
    if sec.kind != SequenceNode {
      return;
    }
    ghost var ts, owned := sec.kids, sec.repr - {sec};
    var nodes := sec.content;
    ghost var more := owned;
    for i := 0 to |nodes|
      invariant Forest(nodes, EachOf(ts, FixedRequirement, i), more)
      invariant forall n :: n in more && n !in owned ==> fresh(n)
      invariant unchanged(sec)
    {
      more := FixRequirementAt(nodes, i, EachOf(ts, FixedRequirement, i), more);
    }
    EachIsFixRequirements(ts);
    sec.Seal(EachOf(ts, FixedRequirement, |ts|), more);
  }

  // ---- a mapping built anew from pairs of an old one -----------------------------------------------

  /** The children kept of the first i pairs. */
  function Kept(ts: seq<Tree>, f: (Tree, Tree) -> seq<Tree>, i: nat): seq<Tree>
    requires 2 * i <= |ts|
  {
    if i == 0 then [] else Kept(ts, f, i - 1) + f(ts[2 * i - 2], ts[2 * i - 1])
  }

  lemma KeptStep(ts: seq<Tree>, f: (Tree, Tree) -> seq<Tree>, i: nat, tt: seq<Tree>, kt: seq<Tree>, mt: seq<Tree>)
    requires 2 <= |tt| && |tt| + 2 * i == |ts| && tt == ts[2 * i..]
    requires kt == Kept(ts, f, i) && mt == kt + f(tt[0], tt[1])
    ensures tt[2..] == ts[2 * (i + 1)..] && mt == Kept(ts, f, i + 1)
  {
  }

  /** What every entry leaves, in order. */
  function Contributions<T>(es: seq<Entry>, f: Entry -> seq<T>): seq<T> {
    if es == [] then [] else f(es[0]) + Contributions(es[1..], f)
  }

  lemma {:induction false} ContributionsExtend<T>(es: seq<Entry>, e: Entry, f: Entry -> seq<T>)
    ensures Contributions(es + [e], f) == Contributions(es, f) + f(e)
  {
    if es == [] {
      assert es + [e] == [e] && [e][1..] == [];
    } else {
      assert (es + [e])[1..] == es[1..] + [e];
      ContributionsExtend(es[1..], e, f);
    }
  }

  /** The function on pairs of children that an entry function amounts to. */
  ghost predicate Agree(f: (Tree, Tree) -> seq<Tree>, g: Entry -> seq<Entry>) {
    forall k, v :: |f(k, v)| % 2 == 0 && Pairs(f(k, v)) == g(Entry(k, v))
  }

  lemma PairsGrow(a: seq<Tree>, f: (Tree, Tree) -> seq<Tree>, g: Entry -> seq<Entry>, k: Tree, v: Tree)
    requires Agree(f, g) && |a| % 2 == 0
    ensures |a + f(k, v)| % 2 == 0 && Pairs(a + f(k, v)) == Pairs(a) + g(Entry(k, v))
  {
    PairsConcat(a, f(k, v));
  }

  lemma {:induction false} KeptUpTo(ts: seq<Tree>, f: (Tree, Tree) -> seq<Tree>, g: Entry -> seq<Entry>, i: nat)
    requires 2 * i <= |ts| && Agree(f, g)
    ensures |Kept(ts, f, i)| % 2 == 0 && Pairs(Kept(ts, f, i)) == Contributions(Pairs(ts)[..i], g)
  {
    if i > 0 {
      KeptUpTo(ts, f, g, i - 1);
      assert Pairs(ts)[..i] == Pairs(ts)[..i - 1] + [Pairs(ts)[i - 1]];
      ContributionsExtend(Pairs(ts)[..i - 1], Pairs(ts)[i - 1], g);
      PairsGrow(Kept(ts, f, i - 1), f, g, ts[2 * i - 2], ts[2 * i - 1]);
    } else {
      NoPairs([]);
    }
  }

  /** All pairs together. */
  lemma KeptIsAll(ts: seq<Tree>, f: (Tree, Tree) -> seq<Tree>, g: Entry -> seq<Entry>)
    requires Agree(f, g)
    ensures |Kept(ts, f, |ts| / 2)| % 2 == 0 && Pairs(Kept(ts, f, |ts| / 2)) == Contributions(Pairs(ts), g)
  {
    KeptUpTo(ts, f, g, |ts| / 2);
    assert Pairs(ts)[..|ts| / 2] == Pairs(ts);
  }

  lemma NoPairs(ts: seq<Tree>)
    requires |ts| < 2
    ensures Pairs(ts) == []
  {
  }

  /** The first pair of a forest, and what follows it. */
  lemma TakePair(todo: seq<Node>, ts: seq<Tree>, owned: set<Node>) returns (rest: set<Node>)
    requires 2 <= |todo| && Forest(todo, ts, owned)
    ensures |ts| == |todo|
    ensures todo[0].Valid() && todo[0].Tree() == ts[0] && todo[1].Valid() && todo[1].Tree() == ts[1]
    ensures todo[0].repr !! todo[1].repr && todo[0].repr !! rest && todo[1].repr !! rest
    ensures todo[0].repr + todo[1].repr + rest == owned
    ensures Forest(todo[2..], ts[2..], rest)
  {
    assert todo[1..][1..] == todo[2..] && ts[1..][1..] == ts[2..];
    rest := owned - todo[0].repr - todo[1].repr;
  }

  /** A pair of nodes joins the ones kept so far. */
  lemma KeepPair(kept: seq<Node>, kt: seq<Tree>, ko: set<Node>, k: Node, v: Node)
    requires Forest(kept, kt, ko) && k.Valid() && v.Valid()
    requires ko !! k.repr && ko !! v.repr && k.repr !! v.repr
    ensures Forest(kept + [k, v], kt + [k.Tree(), v.Tree()], ko + k.repr + v.repr)
  {
    ForestOfOne(k);
    ForestOfOne(v);
    JoinForest(kept, kt, ko, [k], [k.Tree()], k.repr);
    JoinForest(kept + [k], kt + [k.Tree()], ko + k.repr, [v], [v.Tree()], v.repr);
    assert kept + [k] + [v] == kept + [k, v] && kt + [k.Tree()] + [v.Tree()] == kt + [k.Tree(), v.Tree()];
  }

  // ---- properties --------------------------------------------------------------------------------------

  function FixedProperty(e: Entry): seq<Entry> {
    if !Spec.HasIdentChar(Name(e)) then [] else [Entry(e.key, if e.val.Scalar? then Spec.EMPTY_MAPPING else e.val)]
  }

  function PropertyKept(k: Tree, v: Tree): seq<Tree> {
    if !Spec.HasIdentChar(Text(k)) then [] else [k, if v.Scalar? then Spec.EMPTY_MAPPING else v]
  }

  lemma {:induction false} PropertiesContribute(es: seq<Entry>)
    ensures Spec.FixPropertyEntries(es) == Contributions(es, FixedProperty)
  {
    if es != [] {
      PropertiesContribute(es[1..]);
    }
  }

  lemma PropertyAgrees()
    ensures Agree(PropertyKept, FixedProperty)
  {
    NoPairs([]);
  }

  method HasASCIIIdentChar(s: string) returns (found: bool)
    ensures found == Spec.HasIdentChar(s)
  {
    for i := 0 to |s|
      invariant forall j :: 0 <= j < i ==> !Spec.IdentChar(s[j])
    {
      if Spec.IdentChar(s[i]) {
        return true;
      }
    }
    return false;
  }

  /** One entry: dropped, or kept with a stray scalar made an empty schema. */
  method FixProperty(kept: seq<Node>, ghost kt: seq<Tree>, ghost ko: set<Node>, pk: Node, pv: Node)
      returns (more: seq<Node>, ghost mo: set<Node>)
    requires Forest(kept, kt, ko) && pk.Valid() && pv.Valid()
    requires ko !! pk.repr && ko !! pv.repr && pk.repr !! pv.repr
    modifies pv.repr
    ensures Forest(more, kt + PropertyKept(pk.Tree(), old(pv.Tree())), mo)
    ensures mo <= ko + pk.repr + old(pv.repr)
  {
    more, mo := kept, ko;
    TextIsValue(pk);
    var named := HasASCIIIdentChar(pk.value);
    if !named {
      assert kt + [] == kt;
      return;
    }
    if pv.kind == ScalarNode {
      pv.Overwrite(MappingNode, "!!map", "", 0, [], [], {});
      NoPairs([]);
    }
    KeepPair(kept, kt, ko, pk, pv);
    more, mo := kept + [pk, pv], ko + pk.repr + pv.repr;
  }

  /** One entry before a forest that stands as before. */
  method FixPropertyBefore(kept: seq<Node>, ghost kt: seq<Tree>, ghost ko: set<Node>, pk: Node, pv: Node,
                           ghost b: seq<Node>, ghost tb: seq<Tree>, ghost ob: set<Node>)
      returns (more: seq<Node>, ghost mo: set<Node>)
    requires Forest(kept, kt, ko) && pk.Valid() && pv.Valid() && Forest(b, tb, ob)
    requires ko !! pk.repr && ko !! pv.repr && pk.repr !! pv.repr && ob !! pv.repr
    modifies pv.repr
    ensures Forest(more, kt + PropertyKept(pk.Tree(), old(pv.Tree())), mo) && Forest(b, tb, ob)
    ensures mo <= ko + pk.repr + old(pv.repr)
  {
    more, mo := FixProperty(kept, kt, ko, pk, pv);
  }

  /** The first pair still to do, fixed; what follows it stands as before. */
  method FixPropertyAt(todo: seq<Node>, kept: seq<Node>, ghost ts: seq<Tree>, ghost i: nat, ghost tt: seq<Tree>,
                       ghost kt: seq<Tree>, ghost ko: set<Node>, ghost ro: set<Node>)
      returns (more: seq<Node>, ghost mt: seq<Tree>, ghost mo: set<Node>, ghost rest: set<Node>)
    requires 2 <= |todo| && Forest(kept, kt, ko) && Forest(todo, tt, ro) && ko !! ro
    requires |tt| + 2 * i == |ts| && tt == ts[2 * i..] && kt == Kept(ts, PropertyKept, i)
    modifies ro
    ensures |tt| == |todo| && tt[2..] == ts[2 * (i + 1)..] && mt == Kept(ts, PropertyKept, i + 1)
    ensures Forest(more, mt, mo) && Forest(todo[2..], tt[2..], rest)
    ensures mo !! rest && mo + rest <= ko + ro
  {
    rest := TakePair(todo, tt, ro);
    more, mo := FixPropertyBefore(kept, kt, ko, todo[0], todo[1], todo[2..], tt[2..], rest);
    mt := kt + PropertyKept(tt[0], tt[1]);
    KeptStep(ts, PropertyKept, i, tt, kt, mt);
  }

  method FixPropertyPairs(nodes: seq<Node>, ghost ts: seq<Tree>, ghost owned: set<Node>)
      returns (kept: seq<Node>, ghost kt: seq<Tree>, ghost ko: set<Node>)
    requires Forest(nodes, ts, owned)
    modifies owned
    ensures Forest(kept, kt, ko) && ko <= owned
    ensures kt == Kept(ts, PropertyKept, |ts| / 2)
  {
    kept, kt, ko := [], [], {};
    var todo := nodes;
    ghost var ro, tt := owned, ts;
    for i := 0 to |nodes| / 2
      invariant |todo| == |tt| && |tt| + 2 * i == |ts| && tt == ts[2 * i..]
      invariant kt == Kept(ts, PropertyKept, i)
      invariant Forest(kept, kt, ko) && Forest(todo, tt, ro)
      invariant ko !! ro && ko + ro <= owned
    {
      kept, kt, ko, ro := FixPropertyAt(todo, kept, ts, i, tt, kt, ko, ro);
      todo, tt := todo[2..], tt[2..];
    }
  }

  method FixProperties(props: Node)
    requires props.Valid()
    modifies props.repr
    ensures props.Valid() && fresh(props.repr - old(props.repr))
    ensures props.Tree() == Spec.FixProperties(old(props.Tree()))
  {
    if props.kind != MappingNode {
      return;
    }
    ghost var ts := props.kids;
    var kept; ghost var kt; ghost var ko;
    kept, kt, ko := FixPropertyPairs(props.content, ts, props.repr - {props});
    PropertiesKept(ts);
    props.Fill(kept, kt, ko);
  }

  lemma PropertiesKept(ts: seq<Tree>)
    ensures var kt := Kept(ts, PropertyKept, |ts| / 2);
      |kt| % 2 == 0 && Pairs(kt) == Spec.FixPropertyEntries(Pairs(ts))
  {
    PropertyAgrees();
    KeptIsAll(ts, PropertyKept, FixedProperty);
    PropertiesContribute(Pairs(ts));
  }

  // ---- tags -----------------------------------------------------------------------------------------------

  function TagField(e: Entry): seq<Entry> {
    if Name(e) == "name" || Name(e) == "description" then [e] else []
  }

  function FieldKept(k: Tree, v: Tree): seq<Tree> {
    if Text(k) == "name" || Text(k) == "description" then [k, v] else []
  }

  lemma {:induction false} FieldsContribute(es: seq<Entry>)
    ensures Spec.TagFields(es) == Contributions(es, TagField)
  {
    if es != [] {
      FieldsContribute(es[1..]);
    }
  }

  lemma FieldAgrees()
    ensures Agree(FieldKept, TagField)
  {
    NoPairs([]);
  }

  lemma FieldsKept(ts: seq<Tree>)
    ensures var kt := Kept(ts, FieldKept, |ts| / 2);
      |kt| % 2 == 0 && Pairs(kt) == Spec.TagFields(Pairs(ts))
  {
    FieldAgrees();
    KeptIsAll(ts, FieldKept, TagField);
    FieldsContribute(Pairs(ts));
  }

  /** One field of a tag, kept or not. */
  method KeepField(todo: seq<Node>, kept: seq<Node>, ghost ts: seq<Tree>, ghost i: nat, ghost tt: seq<Tree>,
                   ghost kt: seq<Tree>, ghost ko: set<Node>, ghost ro: set<Node>)
      returns (more: seq<Node>, ghost mt: seq<Tree>, ghost mo: set<Node>, ghost rest: set<Node>)
    requires 2 <= |todo| && Forest(kept, kt, ko) && Forest(todo, tt, ro) && ko !! ro
    requires |tt| + 2 * i == |ts| && tt == ts[2 * i..] && kt == Kept(ts, FieldKept, i)
    ensures |tt| == |todo| && tt[2..] == ts[2 * (i + 1)..] && mt == Kept(ts, FieldKept, i + 1)
    ensures Forest(more, mt, mo) && Forest(todo[2..], tt[2..], rest)
    ensures mo !! rest && mo + rest <= ko + ro
  {
    rest := TakePair(todo, tt, ro);
    TextIsValue(todo[0]);
    more, mo := kept, ko;
    if todo[0].value == "name" || todo[0].value == "description" {
      KeepPair(kept, kt, ko, todo[0], todo[1]);
      more, mo := kept + [todo[0], todo[1]], ko + todo[0].repr + todo[1].repr;
    } else {
      assert kt + [] == kt;
    }
    mt := kt + FieldKept(tt[0], tt[1]);
    KeptStep(ts, FieldKept, i, tt, kt, mt);
  }

  /** The fields of a tag that are kept; nothing is written. */
  method TagFields(nodes: seq<Node>, ghost ts: seq<Tree>, ghost owned: set<Node>)
      returns (kept: seq<Node>, ghost kt: seq<Tree>, ghost ko: set<Node>)
    requires Forest(nodes, ts, owned)
    ensures Forest(kept, kt, ko) && ko <= owned
    ensures kt == Kept(ts, FieldKept, |ts| / 2)
  {
    kept, kt, ko := [], [], {};
    var todo := nodes;
    ghost var ro, tt := owned, ts;
    for i := 0 to |nodes| / 2
      invariant |todo| == |tt| && |tt| + 2 * i == |ts| && tt == ts[2 * i..]
      invariant kt == Kept(ts, FieldKept, i)
      invariant Forest(kept, kt, ko) && Forest(todo, tt, ro)
      invariant ko !! ro && ko + ro <= owned
    {
      kept, kt, ko, ro := KeepField(todo, kept, ts, i, tt, kt, ko, ro);
      todo, tt := todo[2..], tt[2..];
    }
  }

  function TagObject(e: Entry): seq<Tree> {
    if e.val.Mapping? then [Mapping("!!map", 0, Spec.TagFields(e.val.entries))] else []
  }

  function ObjectKept(k: Tree, v: Tree): seq<Tree> {
    TagObject(Entry(k, v))
  }

  lemma {:induction false} ObjectsContribute(es: seq<Entry>)
    ensures Spec.TagObjects(es) == Contributions(es, TagObject)
  {
    if es != [] {
      ObjectsContribute(es[1..]);
    }
  }

  lemma {:induction false} KeptDirectly(ts: seq<Tree>, f: (Tree, Tree) -> seq<Tree>, g: Entry -> seq<Tree>, i: nat)
    requires 2 * i <= |ts| && forall k, v :: f(k, v) == g(Entry(k, v))
    ensures Kept(ts, f, i) == Contributions(Pairs(ts)[..i], g)
  {
    if i > 0 {
      KeptDirectly(ts, f, g, i - 1);
      assert Pairs(ts)[..i] == Pairs(ts)[..i - 1] + [Pairs(ts)[i - 1]];
      ContributionsExtend(Pairs(ts)[..i - 1], Pairs(ts)[i - 1], g);
    }
  }

  lemma ObjectsKept(ts: seq<Tree>)
    ensures Kept(ts, ObjectKept, |ts| / 2) == Spec.TagObjects(Pairs(ts))
  {
    KeptDirectly(ts, ObjectKept, TagObject, |ts| / 2);
    assert Pairs(ts)[..|ts| / 2] == Pairs(ts);
    ObjectsContribute(Pairs(ts));
  }

  /** A new mapping with the kept fields of a tag. */
  method NewTag(obj: Node) returns (tag: Node)
    requires obj.Valid() && obj.kind == MappingNode
    ensures fresh(tag) && tag.Valid() && tag.repr <= {tag} + obj.repr
    ensures ObjectKept(Alias(""), obj.Tree()) == [tag.Tree()]
  {
    var kept; ghost var kt; ghost var ko;
    kept, kt, ko := TagFields(obj.content, obj.kids, obj.repr - {obj});
    FieldsKept(obj.kids);
    tag := NewNode(MappingNode, "!!map", "", 0, kept, kt, ko);
  }

  /** A new tag joins the ones kept so far. */
  method AddTag(obj: Node, kept: seq<Node>, ghost kt: seq<Tree>, ghost ko: set<Node>)
      returns (more: seq<Node>, ghost mo: set<Node>, ghost made: set<Node>)
    requires obj.Valid() && obj.kind == MappingNode && Forest(kept, kt, ko) && ko !! obj.repr
    ensures Forest(more, kt + ObjectKept(Alias(""), obj.Tree()), mo)
    ensures mo <= ko + obj.repr + made && fresh(made)
  {
    var tag := NewTag(obj);
    made := {tag};
    ForestOfOne(tag);
    JoinForest(kept, kt, ko, [tag], [tag.Tree()], tag.repr);
    more, mo := kept + [tag], ko + tag.repr;
  }

  /** One value: its tag joins the ones kept so far, if it is a mapping. */
  method KeepTag(obj: Node, kept: seq<Node>, ghost kt: seq<Tree>, ghost ko: set<Node>)
      returns (more: seq<Node>, ghost mo: set<Node>, ghost made: set<Node>)
    requires obj.Valid() && Forest(kept, kt, ko) && ko !! obj.repr
    ensures Forest(more, kt + ObjectKept(Alias(""), obj.Tree()), mo)
    ensures mo <= ko + obj.repr + made && fresh(made)
  {
    more, mo, made := kept, ko, {};
    if obj.kind == MappingNode {
      more, mo, made := AddTag(obj, kept, kt, ko);
    } else {
      assert kt + [] == kt;
    }
  }

  method KeepObject(todo: seq<Node>, kept: seq<Node>, ghost ts: seq<Tree>, ghost i: nat, ghost tt: seq<Tree>,
                    ghost kt: seq<Tree>, ghost ko: set<Node>, ghost ro: set<Node>)
      returns (more: seq<Node>, ghost mt: seq<Tree>, ghost mo: set<Node>, ghost rest: set<Node>, ghost made: set<Node>)
    requires 2 <= |todo| && Forest(kept, kt, ko) && Forest(todo, tt, ro) && ko !! ro
    requires |tt| + 2 * i == |ts| && tt == ts[2 * i..] && kt == Kept(ts, ObjectKept, i)
    ensures |tt| == |todo| && tt[2..] == ts[2 * (i + 1)..] && mt == Kept(ts, ObjectKept, i + 1)
    ensures Forest(more, mt, mo) && Forest(todo[2..], tt[2..], rest)
    ensures mo !! rest && mo <= ko + ro + made && fresh(made) && rest <= ro
  {
    rest := TakePair(todo, tt, ro);
    mt := kt + ObjectKept(tt[0], tt[1]);
    more, mo, made := KeepTag(todo[1], kept, kt, ko);
    KeptStep(ts, ObjectKept, i, tt, kt, mt);
  }

  /** The value objects of the tags mapping, rebuilt; nothing is written. */
  method TagObjects(nodes: seq<Node>, ghost ts: seq<Tree>, ghost owned: set<Node>)
      returns (kept: seq<Node>, ghost kt: seq<Tree>, ghost ko: set<Node>)
    requires Forest(nodes, ts, owned)
    ensures Forest(kept, kt, ko) && fresh(ko - owned)
    ensures kt == Kept(ts, ObjectKept, |ts| / 2)
  {
    kept, kt, ko := [], [], {};
    var todo := nodes;
    ghost var ro, tt := owned, ts;
    for i := 0 to |nodes| / 2
      invariant |todo| == |tt| && |tt| + 2 * i == |ts| && tt == ts[2 * i..]
      invariant kt == Kept(ts, ObjectKept, i)
      invariant Forest(kept, kt, ko) && Forest(todo, tt, ro) && ko !! ro
      invariant fresh(ko - owned)
      invariant ro <= owned
    {
      ghost var before, held := ko, ro;
      ghost var made;
      kept, kt, ko, ro, made := KeepObject(todo, kept, ts, i, tt, kt, ko, ro);
      assert ko - owned <= (before - owned) + made;
      todo, tt := todo[2..], tt[2..];
    }
  }

  method FixTags(tags: Node)
    requires tags.Valid()
    modifies tags.repr
    ensures tags.Valid() && fresh(tags.repr - old(tags.repr))
    ensures tags.Tree() == Spec.FixTags(old(tags.Tree()))
  {
    if tags.kind != MappingNode {
      return;
    }
    ghost var ts := tags.kids;
    var objects; ghost var kt; ghost var ko;
    objects, kt, ko := TagObjects(tags.content, ts, tags.repr - {tags});
    ObjectsKept(ts);
    tags.Overwrite(SequenceNode, "!!seq", "", 0, objects, kt, ko);
  }
}
