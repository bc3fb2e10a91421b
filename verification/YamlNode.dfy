/**
  YAML nodes as the rewrite holds them: objects that are overwritten in place. Each node
  owns the nodes below it, and carries as ghost state the tree it stands for.
 */
module YamlNode {
  import opened Prelude
  import opened YamlTree

  datatype Kind = DocumentNode | SequenceNode | MappingNode | ScalarNode | AliasNode

  function Pairs(trees: seq<Tree>): (entries: seq<Entry>)
    ensures |entries| == |trees| / 2
    ensures forall i :: 0 <= i < |entries| ==> entries[i] == Entry(trees[2 * i], trees[2 * i + 1])
  {
    seq(|trees| / 2, i requires 0 <= i < |trees| / 2 => Entry(trees[2 * i], trees[2 * i + 1]))
  }

  /** The tree of a node with these fields and children. */
  function Assembled(kind: Kind, tag: string, value: string, style: int, trees: seq<Tree>): Tree {
    match kind
    case DocumentNode => Document(trees)
    case SequenceNode => Sequence(tag, style, trees)
    case MappingNode => Mapping(tag, style, Pairs(trees))
    case ScalarNode => Scalar(tag, value, style)
    case AliasNode => Alias(value)
  }

  /** Text only where there is text, children only where there are children, and those of a mapping in pairs. */
  predicate WellShaped(kind: Kind, value: string, n: nat) {
    match kind
    case ScalarNode => n == 0
    case AliasNode => n == 0
    case MappingNode => value == "" && n % 2 == 0
    case _ => value == ""
  }

  class Node {
    var kind: Kind
    var tag: string
    var value: string
    var style: int
    var content: seq<Node>
    /** The nodes of this tree, and the trees of the children. */
    ghost var repr: set<Node>
    ghost var kids: seq<Tree>

    ghost predicate Valid()
      reads this, repr
      decreases repr, 0
    {
      this in repr
      && (forall n :: n in content ==> n in repr)
      && WellShaped(kind, value, |content|)
      && Forest(content, kids, repr - {this})
    }

    /** The tree this node stands for. */
    ghost function Tree(): Tree
      reads this
    {
      Assembled(kind, tag, value, style, kids)
    }

    /** Every field is written anew. */
    method Overwrite(kind: Kind, tag: string, value: string, style: int, content: seq<Node>,
                     ghost kids: seq<Tree>, ghost owned: set<Node>)
      requires WellShaped(kind, value, |content|) && Forest(content, kids, owned) && this !in owned
      modifies this
      ensures Valid() && repr == {this} + owned
      ensures Tree() == Assembled(kind, tag, value, style, kids)
    {
      this.kind, this.tag, this.value, this.style, this.content := kind, tag, value, style, content;
      Seal(kids, owned);
    }

    /** Other children, and nothing else. */
    method Fill(content: seq<Node>, ghost kids: seq<Tree>, ghost owned: set<Node>)
      requires WellShaped(kind, value, |content|) && Forest(content, kids, owned) && this !in owned
      modifies this`content, this`repr, this`kids
      ensures Valid() && repr == {this} + owned && this.kids == kids && this.content == content
    {
      this.content := content;
      Seal(kids, owned);
    }

    /** The ghost state follows the fields. */
    ghost method Seal(kids: seq<Tree>, owned: set<Node>)
      requires WellShaped(kind, value, |content|) && Forest(content, kids, owned) && this !in owned
      modifies this`repr, this`kids
      ensures Valid() && repr == {this} + owned && this.kids == kids
    {
      this.repr := {this} + owned;
      this.kids := kids;
      assert repr - {this} == owned;
    }
  }

  /** Separate nodes that stand for these trees and own these nodes between them. */
  ghost predicate Forest(nodes: seq<Node>, trees: seq<Tree>, owned: set<Node>): (ok: bool)
    reads nodes, owned
    ensures ok ==> |trees| == |nodes| && forall n :: n in nodes ==> n in owned
    decreases owned, 1 + |nodes|
  {
    if nodes == [] then trees == [] && owned == {}
    else
      trees != [] && nodes[0].repr <= owned && nodes[0].Valid() && nodes[0].Tree() == trees[0]
      && Forest(nodes[1..], trees[1..], owned - nodes[0].repr)
  }

  lemma {:induction false} JoinForest(a: seq<Node>, ta: seq<Tree>, oa: set<Node>, b: seq<Node>, tb: seq<Tree>,
                                      ob: set<Node>)
    requires Forest(a, ta, oa) && Forest(b, tb, ob) && oa !! ob
    ensures Forest(a + b, ta + tb, oa + ob)
  {
    if a == [] {
      assert a + b == b && ta + tb == tb && oa + ob == ob;
    } else {
      assert (a + b)[1..] == a[1..] + b && (ta + tb)[1..] == ta[1..] + tb;
      assert oa + ob - a[0].repr == (oa - a[0].repr) + ob;
      JoinForest(a[1..], ta[1..], oa - a[0].repr, b, tb, ob);
    }
  }

  lemma {:induction false} SplitForest(nodes: seq<Node>, trees: seq<Tree>, owned: set<Node>, k: nat)
      returns (left: set<Node>, right: set<Node>)
    requires Forest(nodes, trees, owned) && k <= |nodes|
    ensures Forest(nodes[..k], trees[..k], left) && Forest(nodes[k..], trees[k..], right)
    ensures left !! right && left + right == owned
  {
    if k == 0 {
      left, right := {}, owned;
    } else {
      left, right := SplitForest(nodes[1..], trees[1..], owned - nodes[0].repr, k - 1);
      assert nodes[..k][1..] == nodes[1..][..k - 1] && trees[..k][1..] == trees[1..][..k - 1];
      assert nodes[1..][k - 1..] == nodes[k..] && trees[1..][k - 1..] == trees[k..];
      left := left + nodes[0].repr;
      assert (left - nodes[0].repr) + nodes[0].repr == left;
    }
  }

  lemma ForestOfOne(n: Node)
    requires n.Valid()
    ensures Forest([n], [n.Tree()], n.repr)
  {
    assert [n][1..] == [] && n.repr - n.repr == {};
  }

  method NewNode(kind: Kind, tag: string, value: string, style: int, content: seq<Node>,
                 ghost kids: seq<Tree>, ghost owned: set<Node>) returns (n: Node)
    requires WellShaped(kind, value, |content|) && Forest(content, kids, owned)
    ensures fresh(n) && n.Valid() && n.repr == {n} + owned
    ensures n.Tree() == Assembled(kind, tag, value, style, kids)
  {
    n := new Node;
    n.Overwrite(kind, tag, value, style, content, kids, owned);
  }

  lemma TextIsValue(n: Node)
    requires n.Valid()
    ensures Text(n.Tree()) == n.value
    ensures n.kind == DocumentNode <==> n.Tree().Document?
    ensures n.kind == SequenceNode <==> n.Tree().Sequence?
    ensures n.kind == MappingNode <==> n.Tree().Mapping?
    ensures n.kind == ScalarNode <==> n.Tree().Scalar?
  {
  }

  /** One member of a forest. */
  lemma {:induction false} ForestAt(nodes: seq<Node>, trees: seq<Tree>, owned: set<Node>, k: nat)
    requires Forest(nodes, trees, owned) && k < |nodes|
    ensures nodes[k].Valid() && nodes[k].repr <= owned && nodes[k].Tree() == trees[k]
  {
    if k > 0 {
      ForestAt(nodes[1..], trees[1..], owned - nodes[0].repr, k - 1);
    }
  }

  /** A forest opened at one member. */
  lemma OpenAt(nodes: seq<Node>, trees: seq<Tree>, owned: set<Node>, k: nat) returns (left: set<Node>, right: set<Node>)
    requires Forest(nodes, trees, owned) && k < |nodes|
    ensures Forest(nodes[..k], trees[..k], left) && Forest(nodes[k + 1..], trees[k + 1..], right)
    ensures nodes[k].Valid() && nodes[k].Tree() == trees[k]
    ensures left !! nodes[k].repr && left !! right && nodes[k].repr !! right
    ensures left + nodes[k].repr + right == owned
  {
    left, right := SplitForest(nodes, trees, owned, k);
    right := right - nodes[k].repr;
    assert nodes[k..][1..] == nodes[k + 1..] && trees[k..][1..] == trees[k + 1..];
  }

  /** The member was rewritten within itself: the forest is closed over what it is now. */
  lemma CloseAt(nodes: seq<Node>, trees: seq<Tree>, k: nat, left: set<Node>, right: set<Node>)
    requires k < |nodes| == |trees|
    requires Forest(nodes[..k], trees[..k], left) && Forest(nodes[k + 1..], trees[k + 1..], right)
    requires nodes[k].Valid()
    requires left !! nodes[k].repr && left !! right && nodes[k].repr !! right
    ensures Forest(nodes, trees[k := nodes[k].Tree()], left + nodes[k].repr + right)
  {
    var n := nodes[k];
    ForestOfOne(n);
    JoinForest(nodes[..k], trees[..k], left, [n], [n.Tree()], n.repr);
    JoinForest(nodes[..k] + [n], trees[..k] + [n.Tree()], left + n.repr, nodes[k + 1..], trees[k + 1..], right);
    assert nodes[..k] + [n] + nodes[k + 1..] == nodes;
    assert trees[..k] + [n.Tree()] + trees[k + 1..] == trees[k := n.Tree()];
  }

  lemma PairsConcat(a: seq<Tree>, b: seq<Tree>)
    requires |a| % 2 == 0
    ensures Pairs(a + b) == Pairs(a) + Pairs(b)
  {
    var all := Pairs(a + b);
    forall i | 0 <= i < |all|
      ensures all[i] == (Pairs(a) + Pairs(b))[i]
    {
      if i >= |a| / 2 {
        assert (a + b)[2 * i] == b[2 * (i - |a| / 2)] && (a + b)[2 * i + 1] == b[2 * (i - |a| / 2) + 1];
      }
    }
  }
}
