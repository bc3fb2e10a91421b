/** YAML documents as trees of nodes, and the two measures the rewrite descends on. */
module YamlTree {
  import opened Prelude

  /**
    A node with its kind, tag, scalar value, style and children. An alias is a leaf
    that carries the anchor's name; what it points to is not followed.
   */
  datatype Tree =
    | Document(children: seq<Tree>)
    | Sequence(tag: string, style: int, children: seq<Tree>)
    | Mapping(tag: string, style: int, entries: seq<Entry>)
    | Scalar(tag: string, value: string, style: int)
    | Alias(anchor: string)

  datatype Entry = Entry(key: Tree, val: Tree)

  /** The text a node carries: only scalars and aliases have any. */
  function Text(t: Tree): string {
    match t
    case Scalar(_, value, _) => value
    case Alias(anchor) => anchor
    case _ => ""
  }

  function Name(e: Entry): string {
    Text(e.key)
  }

  /** The value of the first entry with this key. */
  function MapValue(es: seq<Entry>, key: string): Option<Tree> {
    if es == [] then None else if Name(es[0]) == key then Some(es[0].val) else MapValue(es[1..], key)
  }

  predicate HasKey(es: seq<Entry>, key: string) {
    MapValue(es, key).Some?
  }

  function Max(a: nat, b: nat): nat {
    if a < b then b else a
  }

  function Depth(t: Tree): nat
    decreases t
  {
    match t
    case Document(cs) => 1 + DepthAll(cs)
    case Sequence(_, _, cs) => 1 + DepthAll(cs)
    case Mapping(_, _, es) => 1 + DepthEntries(es)
    case _ => 1
  }

  function DepthAll(cs: seq<Tree>): nat
    decreases cs
  {
    if cs == [] then 0 else Max(Depth(cs[0]), DepthAll(cs[1..]))
  }

  function DepthEntries(es: seq<Entry>): nat
    decreases es
  {
    if es == [] then 0
    else Max(DepthEntry(es[0]), DepthEntries(es[1..]))
  }

  /** Keys are never walked, so they have no depth. */
  function DepthEntry(e: Entry): nat
    decreases e
  {
    Depth(e.val)
  }

  /** How many entries named `paths` the walk can still meet. */
  function PathsIn(t: Tree): nat
    decreases t
  {
    match t
    case Document(cs) => PathsInAll(cs)
    case Sequence(_, _, cs) => PathsInAll(cs)
    case Mapping(_, _, es) => PathsInEntries(es)
    case _ => 0
  }

  function PathsInAll(cs: seq<Tree>): nat
    decreases cs
  {
    if cs == [] then 0 else PathsIn(cs[0]) + PathsInAll(cs[1..])
  }

  function PathsInEntries(es: seq<Entry>): nat
    decreases es
  {
    if es == [] then 0
    else PathsInEntry(es[0]) + PathsInEntries(es[1..])
  }

  function PathsInEntry(e: Entry): nat
    decreases e
  {
    (if Name(e) == "paths" then 1 else 0) + PathsIn(e.val)
  }

  lemma ConsAll(c: Tree, rest: seq<Tree>)
    ensures DepthAll([c] + rest) == Max(Depth(c), DepthAll(rest))
    ensures PathsInAll([c] + rest) == PathsIn(c) + PathsInAll(rest)
  {
    assert ([c] + rest)[1..] == rest;
  }

  lemma HeadEntry(es: seq<Entry>)
    requires es != []
    ensures DepthEntries(es) == Max(Depth(es[0].val), DepthEntries(es[1..]))
    ensures PathsInEntries(es) ==
      (if Name(es[0]) == "paths" then 1 else 0) + PathsIn(es[0].val) + PathsInEntries(es[1..])
  {
    assert DepthEntry(es[0]) == Depth(es[0].val);
    assert PathsInEntry(es[0]) == (if Name(es[0]) == "paths" then 1 else 0) + PathsIn(es[0].val);
  }

  lemma ConsEntries(e: Entry, rest: seq<Entry>)
    ensures DepthEntries([e] + rest) == Max(Depth(e.val), DepthEntries(rest))
    ensures PathsInEntries([e] + rest) == (if Name(e) == "paths" then 1 else 0) + PathsIn(e.val) + PathsInEntries(rest)
  {
    HeadEntry([e] + rest);
    assert ([e] + rest)[1..] == rest;
  }

  lemma {:induction false} NoPathsInEntries(es: seq<Entry>)
    requires forall i :: 0 <= i < |es| ==> PathsInEntry(es[i]) == 0
    ensures PathsInEntries(es) == 0
  {
    if es != [] { NoPathsInEntries(es[1..]); }
  }

  lemma {:induction false} PathsInAllConcat(a: seq<Tree>, b: seq<Tree>)
    ensures PathsInAll(a + b) == PathsInAll(a) + PathsInAll(b)
  {
    if a == [] {
      assert a + b == b;
    } else {
      assert (a + b)[1..] == a[1..] + b;
      PathsInAllConcat(a[1..], b);
    }
  }
}
