/**
  A stable sort by a comparator that may call different elements equal. The original's
  array sort is specified, not copied: any arrangement that is in order and keeps equal
  elements in their first order is this one.
 */
module StableSort {
  ghost predicate TotalPreorder<T(!new)>(leq: (T, T) -> bool) {
    (forall a, b :: leq(a, b) || leq(b, a)) && (forall a, b, c :: leq(a, b) && leq(b, c) ==> leq(a, c))
  }

  predicate Tied<T>(leq: (T, T) -> bool, a: T, b: T) {
    leq(a, b) && leq(b, a)
  }

  predicate InOrder<T>(s: seq<T>, leq: (T, T) -> bool) {
    forall i, j :: 0 <= i < j < |s| ==> leq(s[i], s[j])
  }

  /** The elements tied with x, in the order they have in s. */
  function TiedWith<T>(s: seq<T>, x: T, leq: (T, T) -> bool): seq<T> {
    if s == [] then []
    else if Tied(leq, s[0], x) then [s[0]] + TiedWith(s[1..], x, leq)
    else TiedWith(s[1..], x, leq)
  }

  /** Every group of ties reads the same in both: the same elements, and ties in the same order. */
  ghost predicate SameTies<T(!new)>(s: seq<T>, t: seq<T>, leq: (T, T) -> bool) {
    forall x :: TiedWith(s, x, leq) == TiedWith(t, x, leq)
  }

  function Insert<T>(x: T, s: seq<T>, leq: (T, T) -> bool): seq<T> {
    if s == [] || leq(x, s[0]) then [x] + s else [s[0]] + Insert(x, s[1..], leq)
  }

  function Sort<T>(s: seq<T>, leq: (T, T) -> bool): seq<T> {
    if s == [] then [] else Insert(s[0], Sort(s[1..], leq), leq)
  }

  // ---- what the sort does -------------------------------------------------------------------

  lemma {:induction false} InsertKeepsElements<T>(x: T, s: seq<T>, leq: (T, T) -> bool)
    ensures multiset(Insert(x, s, leq)) == multiset{x} + multiset(s)
  {
    if s == [] || leq(x, s[0]) {
    } else {
      InsertKeepsElements(x, s[1..], leq);
      assert s == [s[0]] + s[1..];
    }
  }

  lemma {:induction false} SortKeepsElements<T>(s: seq<T>, leq: (T, T) -> bool)
    ensures multiset(Sort(s, leq)) == multiset(s)
    ensures |Sort(s, leq)| == |s|
  {
    if s != [] {
      SortKeepsElements(s[1..], leq);
      InsertKeepsElements(s[0], Sort(s[1..], leq), leq);
      assert s == [s[0]] + s[1..];
    }
    assert |Sort(s, leq)| == |multiset(Sort(s, leq))|;
  }

  lemma {:induction false} InsertKeepsOrder<T(!new)>(x: T, s: seq<T>, leq: (T, T) -> bool)
    requires TotalPreorder(leq) && InOrder(s, leq)
    ensures InOrder(Insert(x, s, leq), leq)
  {
    if s == [] || leq(x, s[0]) {
    } else {
      InsertKeepsOrder(x, s[1..], leq);
      InsertKeepsElements(x, s[1..], leq);
      forall y | y in Insert(x, s[1..], leq)
        ensures leq(s[0], y)
      {
        assert y in multiset(Insert(x, s[1..], leq));
      }
    }
  }

  lemma {:induction false} SortIsInOrder<T(!new)>(s: seq<T>, leq: (T, T) -> bool)
    requires TotalPreorder(leq)
    ensures InOrder(Sort(s, leq), leq)
  {
    if s != [] {
      SortIsInOrder(s[1..], leq);
      InsertKeepsOrder(s[0], Sort(s[1..], leq), leq);
    }
  }

  lemma {:induction false} InsertKeepsTies<T(!new)>(x: T, s: seq<T>, leq: (T, T) -> bool, y: T)
    requires TotalPreorder(leq)
    ensures TiedWith(Insert(x, s, leq), y, leq) == TiedWith([x] + s, y, leq)
  {
    assert ([x] + s)[1..] == s;
    if s == [] || leq(x, s[0]) {
    } else {
      InsertKeepsTies(x, s[1..], leq, y);
      assert ([x] + s[1..])[1..] == s[1..];
      var rest := Insert(x, s[1..], leq);
      assert ([s[0]] + rest)[1..] == rest;
      assert !(Tied(leq, x, y) && Tied(leq, s[0], y));
    }
  }

  lemma {:induction false} SortKeepsTies<T(!new)>(s: seq<T>, leq: (T, T) -> bool, y: T)
    requires TotalPreorder(leq)
    ensures TiedWith(Sort(s, leq), y, leq) == TiedWith(s, y, leq)
  {
    if s != [] {
      var rest := Sort(s[1..], leq);
      SortKeepsTies(s[1..], leq, y);
      InsertKeepsTies(s[0], rest, leq, y);
      assert ([s[0]] + rest)[1..] == rest;
    }
  }

  // ---- and nothing else does it ----------------------------------------------------------------

  lemma {:induction false} TiedIsMember<T>(s: seq<T>, x: T, leq: (T, T) -> bool)
    ensures forall y :: y in TiedWith(s, x, leq) <==> y in s && Tied(leq, y, x)
  {
    if s != [] {
      TiedIsMember(s[1..], x, leq);
      assert s == [s[0]] + s[1..];
    }
  }

  lemma HeadsAgree<T(!new)>(s: seq<T>, t: seq<T>, leq: (T, T) -> bool)
    requires TotalPreorder(leq) && InOrder(s, leq) && InOrder(t, leq) && SameTies(s, t, leq)
    requires s != []
    ensures t != [] && s[0] == t[0]
  {
    var a := s[0];
    assert TiedWith(s, a, leq)[0] == a;
    TiedIsMember(t, a, leq);
    assert a in TiedWith(t, a, leq);
    var b := t[0];
    TiedIsMember(s, b, leq);
    assert TiedWith(t, b, leq)[0] == b;
    assert b in TiedWith(s, b, leq);
    assert leq(a, b) && leq(b, a);
    assert TiedWith(t, a, leq)[0] == b;
  }

  lemma TailsAgree<T(!new)>(s: seq<T>, t: seq<T>, leq: (T, T) -> bool)
    requires SameTies(s, t, leq) && s != [] && t != [] && s[0] == t[0]
    ensures SameTies(s[1..], t[1..], leq)
  {
    forall x
      ensures TiedWith(s[1..], x, leq) == TiedWith(t[1..], x, leq)
    {
      assert TiedWith(s, x, leq) == TiedWith(t, x, leq);
      if Tied(leq, s[0], x) {
        assert TiedWith(s[1..], x, leq) == TiedWith(s, x, leq)[1..];
        assert TiedWith(t[1..], x, leq) == TiedWith(t, x, leq)[1..];
      }
    }
  }

  lemma {:induction false} OneArrangement<T(!new)>(s: seq<T>, t: seq<T>, leq: (T, T) -> bool)
    requires TotalPreorder(leq) && InOrder(s, leq) && InOrder(t, leq) && SameTies(s, t, leq)
    ensures s == t
  {
    if s == [] {
      if t != [] {
        HeadsAgree(t, s, leq);
      }
    } else {
      HeadsAgree(s, t, leq);
      TailsAgree(s, t, leq);
      OneArrangement(s[1..], t[1..], leq);
      assert s == [s[0]] + s[1..] && t == [t[0]] + t[1..];
    }
  }

  /** A sequence is the stable sort of s exactly when it is in order and keeps the ties of s. */
  lemma SortIsTheOnlyOne<T(!new)>(s: seq<T>, t: seq<T>, leq: (T, T) -> bool)
    requires TotalPreorder(leq)
    ensures t == Sort(s, leq) <==> InOrder(t, leq) && SameTies(s, t, leq)
  {
    SortIsInOrder(s, leq);
    forall x
      ensures TiedWith(Sort(s, leq), x, leq) == TiedWith(s, x, leq)
    {
      SortKeepsTies(s, leq, x);
    }
    if InOrder(t, leq) && SameTies(s, t, leq) {
      assert SameTies(Sort(s, leq), t, leq);
      OneArrangement(Sort(s, leq), t, leq);
    }
  }
}
