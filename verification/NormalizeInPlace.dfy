/**
  The rewrite as it is carried out, node by node and in place: after Normalize the node
  stands for the normalized tree of what it stood for before.
 */
module NormalizeInPlace {
  import opened Prelude
  import opened YamlTree
  import opened YamlNode
  import opened FixInPlace
  import opened PathsInPlace
  import Spec = NormalizeSpec

  // ---- one value under its key --------------------------------------------------------------------

  /** The fix the keyword asks for; the entry is to be dropped when it says so. */
  method FixValue(key: string, val: Node, isParam: bool) returns (drop: bool)
    requires val.Valid()
    modifies val.repr
    ensures val.Valid() && fresh(val.repr - old(val.repr))
    ensures Spec.FixAs(Spec.KeywordOf(key), old(val.Tree()), isParam) == if drop then None else Some(val.Tree())
  {
    drop := false;
    match Spec.KeywordOf(key)
    case Type => drop := FixType(val);
    case Required => drop := FixRequired(val, isParam);
    case Properties => FixProperties(val);
    case Composition => FixComposition(val);
    case Enum => drop := FixEnum(val);
    case Security => FixSecurity(val);
    case Tags => FixTags(val);
    case Paths => FixPaths(val);
    case AdditionalProperties => FixAdditionalProperties(val);
    case Plain =>
  }

  // ---- enum and type agree -------------------------------------------------------------------------

  /** Digits only from here on. */
  predicate DigitsFrom(s: string, first: nat) {
    forall j :: first <= j < |s| ==> Spec.Digit(s[j])
  }

  lemma LiteralIff(s: string, first: nat)
    requires s != "" && first == if s[0] == '+' || s[0] == '-' then 1 else 0
    ensures Spec.IntegerLiteral(s) <==> first < |s| && DigitsFrom(s, first)
  {
    assert s[0..] == s;
    var digits := s[first..];
    assert Spec.IntegerLiteral(s) <==> Spec.AllDigits(digits);
    assert forall j :: first <= j < |s| ==> s[j] == digits[j - first];
  }

  method IsIntegerLiteral(s: string) returns (literal: bool)
    ensures literal == Spec.IntegerLiteral(s)
  {
    if s == "" {
      return false;
    }
    var i := 0;
    if s[0] == '+' || s[0] == '-' {
      i := 1;
    }
    ghost var first := i;
    LiteralIff(s, first);
    if i == |s| {
      return false;
    }
    while i < |s|
      invariant first <= i <= |s| && forall j :: first <= j < i ==> Spec.Digit(s[j])
    {
      if s[i] < '0' || s[i] > '9' {
        return false;
      }
      i := i + 1;
    }
    return true;
  }

  predicate LiteralMember(t: Tree) {
    Spec.IntegerLiteral(Text(t))
  }

  /** One member: whether it is a scalar, and whether its text is an integer. */
  method ReadMember(n: Node) returns (scalar: bool, literal: bool)
    requires n.Valid()
    ensures scalar == n.Tree().Scalar? && literal == LiteralMember(n.Tree())
  {
    TextIsValue(n);
    scalar := n.kind == ScalarNode;
    literal := IsIntegerLiteral(n.value);
  }

  /** The first i members are scalars; the first i texts are integers. */
  predicate ScalarsTo(ts: seq<Tree>, i: nat)
    requires i <= |ts|
  {
    i == 0 || (ScalarsTo(ts, i - 1) && ts[i - 1].Scalar?)
  }

  predicate LiteralsTo(ts: seq<Tree>, i: nat)
    requires i <= |ts|
  {
    i == 0 || (LiteralsTo(ts, i - 1) && LiteralMember(ts[i - 1]))
  }

  lemma {:induction false} ScalarsAre(ts: seq<Tree>, i: nat)
    requires i <= |ts|
    ensures ScalarsTo(ts, i) <==> forall j :: 0 <= j < i ==> ts[j].Scalar?
  {
    if i > 0 { ScalarsAre(ts, i - 1); }
  }

  lemma {:induction false} LiteralsAre(ts: seq<Tree>, i: nat)
    requires i <= |ts|
    ensures LiteralsTo(ts, i) <==> forall j :: 0 <= j < i ==> Spec.IntegerLiteral(Text(ts[j]))
  {
    if i > 0 { LiteralsAre(ts, i - 1); }
  }

  lemma NotAScalar(ts: seq<Tree>, i: nat)
    requires i < |ts| && !ts[i].Scalar?
    ensures !ScalarsTo(ts, |ts|)
  {
    ScalarsAre(ts, |ts|);
  }

  /** Whether all members are scalars, and then whether all are integers. */
  method ReadMembers(nodes: seq<Node>, ghost ts: seq<Tree>, ghost owned: set<Node>)
      returns (scalars: bool, integers: bool)
    requires Forest(nodes, ts, owned)
    ensures scalars == ScalarsTo(ts, |ts|)
    ensures scalars ==> integers == LiteralsTo(ts, |ts|)
  {
    integers := true;
    for i := 0 to |nodes|
      invariant ScalarsTo(ts, i) && integers == LiteralsTo(ts, i)
    {
      ForestAt(nodes, ts, owned, i);
      var scalar, literal := ReadMember(nodes[i]);
      if !scalar {
        NotAScalar(ts, i);
        return false, false;
      }
      if !literal {
        integers := false;
      }
    }
    scalars := true;
  }

  /** Whether all members are scalars, and then the type they want. */
  method WantedType(nodes: seq<Node>, ghost ts: seq<Tree>, ghost owned: set<Node>) returns (scalars: bool, want: string)
    requires Forest(nodes, ts, owned)
    ensures scalars == Spec.AllScalars(ts)
    ensures scalars ==> want == Spec.WantedType(ts)
  {
    var integers;
    scalars, integers := ReadMembers(nodes, ts, owned);
    want := if integers then "integer" else "string";
    ScalarsAre(ts, |ts|);
    LiteralsAre(ts, |ts|);
  }

  /** The deciding enumeration, if the mapping has one, and the type it wants. */
  method EnumWants(m: Node) returns (decided: bool, want: string)
    requires m.Valid() && m.kind == MappingNode
    ensures decided == Spec.DecidingEnum(Pairs(m.kids)).Some?
    ensures decided ==> want == Spec.WantedType(Spec.DecidingEnum(Pairs(m.kids)).value)
  {
    var enum, at := PathsInPlace.MapValue(m, "enum");
    if enum == null || enum.kind != SequenceNode || |enum.content| == 0 {
      return false, "";
    }
    decided, want := WantedType(enum.content, enum.kids, enum.repr - {enum});
  }

  lemma {:induction false} SetTypeAt(es: seq<Entry>, want: string, at: nat)
    requires EntryAt(es, "type", at)
    ensures Spec.SetType(es, want) ==
      if es[at].val.Scalar? && es[at].val.value == want then es else es[at := Entry(es[at].key, Spec.Str(want))]
    decreases at
  {
    if at > 0 {
      assert Name(es[0]) != "type";
      SetTypeAt(es[1..], want, at - 1);
      assert es == [es[0]] + es[1..];
    }
  }

  lemma {:induction false} SetTypeNew(es: seq<Entry>, want: string)
    requires !HasKey(es, "type")
    ensures Spec.SetType(es, want) == es + [Entry(Spec.Str("type"), Spec.Str(want))]
  {
    if es != [] {
      SetTypeNew(es[1..], want);
      assert es == [es[0]] + es[1..];
    }
  }

  /** A type at the end of a mapping that has none. */
  method AppendType(m: Node, want: string)
    requires m.Valid() && m.kind == MappingNode
    modifies m
    ensures m.Valid() && fresh(m.repr - old(m.repr)) && m.kind == MappingNode
    ensures m.tag == old(m.tag) && m.style == old(m.style)
    ensures m.kids == old(m.kids) + [Spec.Str("type"), Spec.Str(want)]
  {
    ghost var ts := m.kids;
    var more; ghost var mo;
    more, mo := WithScalar(m.content, ts, m.repr - {m}, "type", "!!str", want);
    m.Fill(more, ts + [Spec.Str("type"), Spec.Str(want)], mo);
  }

  /** One child between two forests that stand as before. */
  method OverwriteBetween(n: Node, want: string, ghost a: seq<Node>, ghost ta: seq<Tree>, ghost oa: set<Node>,
                          ghost b: seq<Node>, ghost tb: seq<Tree>, ghost ob: set<Node>)
    requires n.Valid() && Forest(a, ta, oa) && Forest(b, tb, ob) && oa !! n.repr && ob !! n.repr
    modifies n.repr
    ensures n.Valid() && fresh(n.repr - old(n.repr)) && Forest(a, ta, oa) && Forest(b, tb, ob)
    ensures n.Tree() == Spec.Str(want)
  {
    n.Overwrite(ScalarNode, "!!str", want, 0, [], [], {});
  }

  method OverwriteAt(nodes: seq<Node>, k: nat, want: string, ghost ts: seq<Tree>, ghost owned: set<Node>)
      returns (ghost more: set<Node>)
    requires Forest(nodes, ts, owned) && k < |nodes|
    modifies owned
    ensures Forest(nodes, ts[k := Spec.Str(want)], more)
    ensures forall n :: n in more && n !in owned ==> fresh(n)
  {
    ghost var left, right := OpenAt(nodes, ts, owned, k);
    OverwriteBetween(nodes[k], want, nodes[..k], ts[..k], left, nodes[k + 1..], ts[k + 1..], right);
    CloseAt(nodes, ts, k, left, right);
    more := left + nodes[k].repr + right;
  }

  method ReplaceType(m: Node, at: nat, want: string)
    requires m.Valid() && m.kind == MappingNode && 2 * at + 1 < |m.content|
    modifies m.repr
    ensures m.Valid() && fresh(m.repr - old(m.repr)) && m.kind == MappingNode
    ensures m.tag == old(m.tag) && m.style == old(m.style)
    ensures var es := Pairs(old(m.kids)); at < |es| && Pairs(m.kids) == es[at := Entry(es[at].key, Spec.Str(want))]
  {
    ghost var ts := m.kids;
    ghost var more := OverwriteAt(m.content, 2 * at + 1, want, ts, m.repr - {m});
    PairsUpdated(ts, at, Spec.Str(want));
    m.Seal(ts[2 * at + 1 := Spec.Str(want)], more);
  }

  method SetType(m: Node, want: string)
    requires m.Valid() && m.kind == MappingNode
    modifies m.repr
    ensures m.Valid() && fresh(m.repr - old(m.repr)) && m.kind == MappingNode
    ensures m.tag == old(m.tag) && m.style == old(m.style)
    ensures Pairs(m.kids) == Spec.SetType(Pairs(old(m.kids)), want)
  {
    ghost var ts := m.kids;
    var t, at := PathsInPlace.MapValue(m, "type");
    if t != null {
      SetTypeAt(Pairs(ts), want, at);
      TextIsValue(t);
      if t.value == want && t.kind == ScalarNode {
        return;
      }
      ReplaceType(m, at, want);
    } else {
      SetTypeNew(Pairs(ts), want);
      PairsConcat(ts, [Spec.Str("type"), Spec.Str(want)]);
      AppendType(m, want);
    }
  }

  method ReconcileEnumType(m: Node)
    requires m.Valid() && m.kind == MappingNode
    modifies m.repr
    ensures m.Valid() && fresh(m.repr - old(m.repr)) && m.kind == MappingNode
    ensures m.tag == old(m.tag) && m.style == old(m.style)
    ensures Pairs(m.kids) == Spec.Reconcile(Pairs(old(m.kids)))
  {
    var decided, want := EnumWants(m);
    if decided {
      SetType(m, want);
    }
  }

  // ---- what one entry leaves ---------------------------------------------------------------------------

  function Rewritten(e: Entry, isParam: bool): seq<Entry> {
    match Spec.Fix(e, isParam)
    case None => []
    case Some(w) => [Entry(e.key, Spec.Normalize(w))]
  }

  function RewrittenPair(k: Tree, v: Tree, isParam: bool): seq<Tree> {
    match Spec.FixAs(Spec.KeywordOf(Text(k)), v, isParam)
    case None => []
    case Some(w) => [k, Spec.Normalize(w)]
  }

  function EntryKept(isParam: bool): (Tree, Tree) -> seq<Tree> {
    (k: Tree, v: Tree) => RewrittenPair(k, v, isParam)
  }

  function EntryLeft(isParam: bool): Entry -> seq<Entry> {
    (e: Entry) => Rewritten(e, isParam)
  }

  lemma {:induction false} EntriesContribute(es: seq<Entry>, isParam: bool)
    ensures Spec.NormalizeEntries(es, isParam) == Contributions(es, EntryLeft(isParam))
  {
    if es != [] {
      EntriesContribute(es[1..], isParam);
    }
  }

  lemma PairAgrees(k: Tree, v: Tree, isParam: bool)
    ensures |RewrittenPair(k, v, isParam)| % 2 == 0
    ensures Pairs(RewrittenPair(k, v, isParam)) == Rewritten(Entry(k, v), isParam)
  {
    NoPairs([]);
  }

  lemma EntriesKept(ts: seq<Tree>, isParam: bool)
    ensures var kt := Kept(ts, EntryKept(isParam), |ts| / 2);
      |kt| % 2 == 0 && Pairs(kt) == Spec.NormalizeEntries(Pairs(ts), isParam)
  {
    forall k, v
      ensures |EntryKept(isParam)(k, v)| % 2 == 0 && Pairs(EntryKept(isParam)(k, v)) == EntryLeft(isParam)(Entry(k, v))
    {
      PairAgrees(k, v, isParam);
    }
    KeptIsAll(ts, EntryKept(isParam), EntryLeft(isParam));
    EntriesContribute(Pairs(ts), isParam);
  }

  lemma {:induction false} AllPointwise(ts: seq<Tree>, fixed: seq<Tree>)
    requires |fixed| == |ts| && forall k :: 0 <= k < |ts| ==> fixed[k] == Spec.Normalize(ts[k])
    ensures fixed == Spec.NormalizeAll(ts)
  {
    if ts != [] {
      AllPointwise(ts[1..], fixed[1..]);
      assert fixed == [fixed[0]] + fixed[1..];
    }
  }

  lemma EachIsNormalizeAll(ts: seq<Tree>)
    ensures EachOf(ts, Spec.Normalize, |ts|) == Spec.NormalizeAll(ts)
  {
    forall k | 0 <= k < |ts|
      ensures EachOf(ts, Spec.Normalize, |ts|)[k] == Spec.Normalize(ts[k])
    {
      EachOfAt(ts, Spec.Normalize, |ts|, k);
    }
    AllPointwise(ts, EachOf(ts, Spec.Normalize, |ts|));
  }

  // ---- the measures go down --------------------------------------------------------------------------------

  lemma {:induction false} MemberBelow(ts: seq<Tree>, k: nat)
    requires k < |ts|
    ensures PathsIn(ts[k]) <= PathsInAll(ts) && Depth(ts[k]) <= DepthAll(ts)
  {
    if k > 0 {
      MemberBelow(ts[1..], k - 1);
    }
  }

  lemma {:induction false} EntryBelow(es: seq<Entry>, k: nat)
    requires k < |es|
    ensures PathsInEntry(es[k]) <= PathsInEntries(es) && Depth(es[k].val) <= DepthEntries(es)
  {
    HeadEntry(es);
    if k > 0 {
      EntryBelow(es[1..], k - 1);
    }
  }

  /** A fixed value may be walked: it is below the entry it came from. */
  lemma FixedBelow(key: Tree, v: Tree, isParam: bool, w: Tree)
    requires Spec.FixAs(Spec.KeywordOf(Text(key)), v, isParam) == Some(w)
    ensures PathsIn(w) <= PathsInEntry(Entry(key, v))
    ensures PathsIn(w) < PathsInEntry(Entry(key, v)) || Depth(w) <= Depth(v)
      || (w.Sequence? && Depth(w) <= Depth(v) + 1)
  {
    Spec.FixDescends(Spec.KeywordOf(Text(key)), v, isParam);
  }

  // ---- the walk ------------------------------------------------------------------------------------------------

  function Rank(t: Tree): nat {
    if t.Mapping? then 2 else 0
  }

  method Normalize(n: Node)
    requires n.Valid()
    modifies n.repr
    ensures n.Valid() && fresh(n.repr - old(n.repr))
    ensures n.Tree() == Spec.Normalize(old(n.Tree()))
    decreases PathsIn(n.Tree()), Depth(n.Tree()), Rank(n.Tree()), 0
  {
    match n.kind
    case DocumentNode => NormalizeChildren(n);
    case SequenceNode => NormalizeChildren(n);
    case MappingNode => NormalizeMapping(n);
    case ScalarNode =>
    case AliasNode =>
  }

  method NormalizeChildren(n: Node)
    requires n.Valid() && (n.kind == DocumentNode || n.kind == SequenceNode)
    modifies n.repr
    ensures n.Valid() && fresh(n.repr - old(n.repr))
    ensures n.Tree() == Spec.Normalize(old(n.Tree()))
    decreases PathsInAll(n.kids), DepthAll(n.kids), 5, 0
  {
    ghost var ts := n.kids;
    ghost var more := NormalizeEach(n.content, ts, n.repr - {n});
    EachIsNormalizeAll(ts);
    n.Seal(EachOf(ts, Spec.Normalize, |ts|), more);
  }

  method NormalizeEach(nodes: seq<Node>, ghost ts: seq<Tree>, ghost owned: set<Node>) returns (ghost more: set<Node>)
    requires Forest(nodes, ts, owned)
    modifies owned
    ensures |ts| == |nodes| && Forest(nodes, EachOf(ts, Spec.Normalize, |ts|), more)
    ensures forall n :: n in more && n !in owned ==> fresh(n)
    decreases PathsInAll(ts), DepthAll(ts), 4, 0
  {
    more := owned;
    for i := 0 to |nodes|
      invariant Forest(nodes, EachOf(ts, Spec.Normalize, i), more)
      invariant forall n :: n in more && n !in owned ==> fresh(n)
    {
      EachOfAt(ts, Spec.Normalize, i, i);
      MemberBelow(ts, i);
      more := NormalizeAt(nodes, i, EachOf(ts, Spec.Normalize, i), more);
    }
  }

  /** One node between two forests that stand as before. */
  method NormalizeBetween(n: Node, ghost a: seq<Node>, ghost ta: seq<Tree>, ghost oa: set<Node>,
                          ghost b: seq<Node>, ghost tb: seq<Tree>, ghost ob: set<Node>)
    requires n.Valid() && Forest(a, ta, oa) && Forest(b, tb, ob) && oa !! n.repr && ob !! n.repr
    modifies n.repr
    ensures n.Valid() && fresh(n.repr - old(n.repr)) && Forest(a, ta, oa) && Forest(b, tb, ob)
    ensures n.Tree() == Spec.Normalize(old(n.Tree()))
    decreases PathsIn(n.Tree()), Depth(n.Tree()), Rank(n.Tree()), 1
  {
    Normalize(n);
  }

  method NormalizeAt(nodes: seq<Node>, k: nat, ghost ts: seq<Tree>, ghost owned: set<Node>)
      returns (ghost more: set<Node>)
    requires Forest(nodes, ts, owned) && k < |nodes|
    modifies owned
    ensures Forest(nodes, ts[k := Spec.Normalize(ts[k])], more)
    ensures forall n :: n in more && n !in owned ==> fresh(n)
    decreases PathsIn(ts[k]), Depth(ts[k]), 3, 0
  {
    ghost var left, right := OpenAt(nodes, ts, owned, k);
    NormalizeBetween(nodes[k], nodes[..k], ts[..k], left, nodes[k + 1..], ts[k + 1..], right);
    CloseAt(nodes, ts, k, left, right);
    more := left + nodes[k].repr + right;
  }

  method IsParam(m: Node) returns (isParam: bool)
    requires m.Valid() && m.kind == MappingNode
    ensures isParam == Spec.IsParam(Pairs(m.kids))
  {
    var keys := ["in", "name"];
    isParam := MappingHasKeys(m, keys);
    assert keys[0] == "in" && keys[1] == "name";
  }

  /** Every pair in turn, the kept ones in order. */
  method RewriteEntries(m: Node, isParam: bool)
    requires m.Valid() && m.kind == MappingNode
    modifies m.repr
    ensures m.Valid() && fresh(m.repr - old(m.repr)) && m.kind == MappingNode
    ensures m.tag == old(m.tag) && m.style == old(m.style)
    ensures Pairs(m.kids) == Spec.NormalizeEntries(Pairs(old(m.kids)), isParam)
    decreases PathsInEntries(Pairs(m.kids)), DepthEntries(Pairs(m.kids)) + 1, 0, 7
  {
    ghost var ts := m.kids;
    var kept; ghost var kt; ghost var ko;
    kept, kt, ko := NormalizePairs(m.content, isParam, ts, m.repr - {m});
    EntriesKept(ts, isParam);
    m.Fill(kept, kt, ko);
  }

  /** The entries rewritten, then enum and type made to agree. */
  method NormalizeMapping(m: Node)
    requires m.Valid() && m.kind == MappingNode
    modifies m.repr
    ensures m.Valid() && fresh(m.repr - old(m.repr))
    ensures m.Tree() == Spec.Normalize(old(m.Tree()))
    decreases PathsInEntries(Pairs(m.kids)), DepthEntries(Pairs(m.kids)) + 1, 1, 0
  {
    var isParam := IsParam(m);
    RewriteEntries(m, isParam);
    ReconcileEnumType(m);
  }

  lemma PairBelow(ts: seq<Tree>, i: nat, tt: seq<Tree>)
    requires 2 <= |tt| && |tt| + 2 * i == |ts| && tt == ts[2 * i..]
    ensures PathsInEntry(Entry(tt[0], tt[1])) <= PathsInEntries(Pairs(ts)) && Depth(tt[1]) <= DepthEntries(Pairs(ts))
  {
    EntryBelow(Pairs(ts), i);
  }

  method NormalizePairs(nodes: seq<Node>, isParam: bool, ghost ts: seq<Tree>, ghost owned: set<Node>)
      returns (kept: seq<Node>, ghost kt: seq<Tree>, ghost ko: set<Node>)
    requires Forest(nodes, ts, owned)
    modifies owned
    ensures Forest(kept, kt, ko) && fresh(ko - owned)
    ensures kt == Kept(ts, EntryKept(isParam), |ts| / 2)
    decreases PathsInEntries(Pairs(ts)), DepthEntries(Pairs(ts)) + 1, 0, 6
  {
    kept, kt, ko := [], [], {};
    var todo := nodes;
    ghost var ro, tt := owned, ts;
    for i := 0 to |nodes| / 2
      invariant |todo| == |tt| && |tt| + 2 * i == |ts| && tt == ts[2 * i..]
      invariant kt == Kept(ts, EntryKept(isParam), i)
      invariant Forest(kept, kt, ko) && Forest(todo, tt, ro)
      invariant ko !! ro && fresh(ko - owned) && ro <= owned
    {
      PairBelow(ts, i, tt);
      kept, kt, ko, ro := NormalizePair(todo, kept, isParam, ts, i, tt, kt, ko, ro);
      todo, tt := todo[2..], tt[2..];
    }
  }

  method NormalizePair(todo: seq<Node>, kept: seq<Node>, isParam: bool, ghost ts: seq<Tree>, ghost i: nat,
                       ghost tt: seq<Tree>, ghost kt: seq<Tree>, ghost ko: set<Node>, ghost ro: set<Node>)
      returns (more: seq<Node>, ghost mt: seq<Tree>, ghost mo: set<Node>, ghost rest: set<Node>)
    requires 2 <= |todo| && Forest(kept, kt, ko) && Forest(todo, tt, ro) && ko !! ro
    requires |tt| + 2 * i == |ts| && tt == ts[2 * i..] && kt == Kept(ts, EntryKept(isParam), i)
    modifies ro
    ensures |tt| == |todo| && tt[2..] == ts[2 * (i + 1)..] && mt == Kept(ts, EntryKept(isParam), i + 1)
    ensures Forest(more, mt, mo) && Forest(todo[2..], tt[2..], rest)
    ensures mo !! rest && fresh(mo - ko - ro) && rest <= ro
    decreases PathsInEntry(Entry(tt[0], tt[1])), Depth(tt[1]) + 1, 0, 5
  {
    rest := TakePair(todo, tt, ro);
    more, mo := RewriteEntryBefore(kept, isParam, kt, ko, todo[0], todo[1], todo[2..], tt[2..], rest);
    mt := kt + RewrittenPair(tt[0], tt[1], isParam);
    KeptStep(ts, EntryKept(isParam), i, tt, kt, mt);
  }

  /** One entry before a forest that stands as before. */
  method RewriteEntryBefore(kept: seq<Node>, isParam: bool, ghost kt: seq<Tree>, ghost ko: set<Node>, key: Node,
                            val: Node, ghost b: seq<Node>, ghost tb: seq<Tree>, ghost ob: set<Node>)
      returns (more: seq<Node>, ghost mo: set<Node>)
    requires Forest(kept, kt, ko) && key.Valid() && val.Valid() && Forest(b, tb, ob)
    requires ko !! key.repr && ko !! val.repr && key.repr !! val.repr
    requires ob !! ko && ob !! key.repr && ob !! val.repr
    modifies val.repr
    ensures Forest(more, kt + RewrittenPair(key.Tree(), old(val.Tree()), isParam), mo) && Forest(b, tb, ob)
    ensures mo !! ob && fresh(mo - ko - key.repr - old(val.repr))
    decreases PathsInEntry(Entry(key.Tree(), val.Tree())), Depth(val.Tree()) + 1, 0, 4
  {
    more, mo := RewriteEntry(kept, isParam, kt, ko, key, val);
  }

  /** The fix of one value between two forests that stand as before. */
  method FixValueBetween(key: string, val: Node, isParam: bool, ghost a: seq<Node>, ghost ta: seq<Tree>,
                         ghost oa: set<Node>, ghost b: seq<Node>, ghost tb: seq<Tree>, ghost ob: set<Node>)
      returns (drop: bool)
    requires val.Valid() && Forest(a, ta, oa) && Forest(b, tb, ob) && oa !! val.repr && ob !! val.repr
    modifies val.repr
    ensures val.Valid() && fresh(val.repr - old(val.repr)) && Forest(a, ta, oa) && Forest(b, tb, ob)
    ensures oa !! val.repr && ob !! val.repr
    ensures Spec.FixAs(Spec.KeywordOf(key), old(val.Tree()), isParam) == if drop then None else Some(val.Tree())
  {
    drop := FixValue(key, val, isParam);
  }

  /** The value of one entry: fixed by its key, and walked unless the entry is dropped. */
  method RewriteValue(key: string, val: Node, isParam: bool, ghost k: Tree,
                      ghost a: seq<Node>, ghost ta: seq<Tree>, ghost oa: set<Node>,
                      ghost b: seq<Node>, ghost tb: seq<Tree>, ghost ob: set<Node>)
      returns (drop: bool)
    requires val.Valid() && Forest(a, ta, oa) && Forest(b, tb, ob) && oa !! val.repr && ob !! val.repr
    requires key == Text(k)
    modifies val.repr
    ensures val.Valid() && fresh(val.repr - old(val.repr)) && Forest(a, ta, oa) && Forest(b, tb, ob)
    ensures oa !! val.repr && ob !! val.repr
    ensures RewrittenPair(k, old(val.Tree()), isParam) == if drop then [] else [k, val.Tree()]
    decreases PathsInEntry(Entry(k, val.Tree())), Depth(val.Tree()) + 1, 0, 2
  {
    ghost var before := val.Tree();
    drop := FixValueBetween(key, val, isParam, a, ta, oa, b, tb, ob);
    if !drop {
      FixedBelow(k, before, isParam, val.Tree());
      NormalizeBetween(val, a, ta, oa, b, tb, ob);
    }
  }

  /** One entry: dropped, or kept with its value rewritten. */
  method RewriteEntry(kept: seq<Node>, isParam: bool, ghost kt: seq<Tree>, ghost ko: set<Node>, key: Node, val: Node)
      returns (more: seq<Node>, ghost mo: set<Node>)
    requires Forest(kept, kt, ko) && key.Valid() && val.Valid()
    requires ko !! key.repr && ko !! val.repr && key.repr !! val.repr
    modifies val.repr
    ensures Forest(more, kt + RewrittenPair(key.Tree(), old(val.Tree()), isParam), mo)
    ensures mo <= ko + key.repr + val.repr && fresh(val.repr - old(val.repr))
    decreases PathsInEntry(Entry(key.Tree(), val.Tree())), Depth(val.Tree()) + 1, 0, 3
  {
    more, mo := kept, ko;
    TextIsValue(key);
    ForestOfOne(key);
    var drop := RewriteValue(key.value, val, isParam, key.Tree(), kept, kt, ko, [key], [key.Tree()], key.repr);
    if drop {
      assert kt + [] == kt;
      return;
    }
    KeepPair(kept, kt, ko, key, val);
    more, mo := kept + [key, val], ko + key.repr + val.repr;
  }
}
