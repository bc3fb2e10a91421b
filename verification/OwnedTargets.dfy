/** The local projection of the server's confirmed owned targets. */
module OwnedTargets {
  import opened Prelude

  datatype Target = Target(targetId: string, account: string, variant: int, variantId: string)

  /** Which sync installed the projection, and for which account. */
  datatype Owner = Owner(generation: nat, account: Option<string>)

  const DETACHED := Owner(0, None)

  /** A product as far as the lookup goes: the variant of its current offer, if it has one. */
  datatype Product = Product(offerVariant: Option<int>)

  /** Keyed by variant; of several targets with one variant the last stays. */
  function ByVariant(targets: seq<Target>): map<int, Target> {
    if targets == [] then map[] else ByVariant(Init(targets))[Last(targets).variant := Last(targets)]
  }

  function Resolved(byVariant: map<int, Target>, p: Product): Option<Target> {
    if p.offerVariant.Some? && p.offerVariant.value in byVariant then Some(byVariant[p.offerVariant.value]) else None
  }

  /** Target `i` is the last one listed for the variant. */
  predicate LastListed(targets: seq<Target>, i: nat, v: int) {
    i < |targets| && targets[i].variant == v && forall j :: i < j < |targets| ==> targets[j].variant != v
  }

  predicate Unlisted(targets: seq<Target>, v: int) {
    forall i :: 0 <= i < |targets| ==> targets[i].variant != v
  }

  lemma ListedBefore(targets: seq<Target>, t: Target, v: int)
    requires t.variant != v
    ensures Unlisted(targets + [t], v) <==> Unlisted(targets, v)
    ensures forall i :: LastListed(targets, i, v) ==> LastListed(targets + [t], i, v)
  {
    assert forall i :: 0 <= i < |targets| ==> (targets + [t])[i] == targets[i];
  }

  /** A lookup finds exactly the last listed target of that variant, or nothing when none is listed. */
  lemma {:induction false} ResolvesToTheLastListed(targets: seq<Target>, v: int)
    ensures var r := Resolved(ByVariant(targets), Product(Some(v)));
      && (r.None? <==> Unlisted(targets, v))
      && (r.Some? ==> exists i: nat :: LastListed(targets, i, v) && targets[i] == r.value)
  {
    if targets != [] {
      var rest, t := Init(targets), Last(targets);
      assert targets == rest + [t];
      ResolvesToTheLastListed(rest, v);
      if t.variant == v {
        assert LastListed(targets, |rest|, v);
      } else {
        ListedBefore(rest, t, v);
        var r := Resolved(ByVariant(rest), Product(Some(v)));
        if r.Some? {
          var i: nat :| LastListed(rest, i, v) && rest[i] == r.value;
          assert LastListed(targets, i, v);
        }
      }
    }
  }

  class OwnedTargetIndex {
    var byVariant: map<int, Target>
    var currentOwner: Owner

    constructor ()
      ensures byVariant == map[] && currentOwner == DETACHED
    {
      byVariant, currentOwner := map[], DETACHED;
    }

    /** Swaps the whole projection; nothing of the old one survives. */
    method ReplaceAll(targets: seq<Target>, owner: Owner)
      modifies this
      ensures byVariant == ByVariant(targets) && currentOwner == owner
    {
      var built: map<int, Target> := map[];
      for i := 0 to |targets|
        invariant built == ByVariant(targets[..i])
      {
        built := built[targets[i].variant := targets[i]];
        assert Init(targets[..i + 1]) == targets[..i];
      }
      assert targets[..|targets|] == targets;
      byVariant, currentOwner := built, owner;
    }

    method Resolve(p: Product) returns (r: Option<Target>)
      ensures r == Resolved(byVariant, p)
    {
      if p.offerVariant.None? { return None; }
      if p.offerVariant.value in byVariant { return Some(byVariant[p.offerVariant.value]); }
      return None;
    }
  }
}
