/**
  Histories of the upload queue: operations in the order they ran, each cut
  short at any of its store writes by a rejected storage call or a killed worker.
 */
module QueueHistory {
  import opened Prelude
  import opened QueueOps

  /** One operation that began, the answers its uploads got, the writes it got through, and what it returned. */
  datatype Event = Ran(op: Op, answers: seq<Outcome>, commits: nat, returned: Option<Result>)

  function After(s: Stores, e: Event): Stores {
    WriteFirst(s, Plan(e.op, e.answers, s), e.commits)
  }

  /** The stores after running the events one at a time. */
  function Replay(s: Stores, log: seq<Event>): Stores {
    if log == [] then s else After(Replay(s, Init(log)), Last(log))
  }

  /** An operation that returned on `s` had made every write of its plan, and returned its result on `s`. */
  predicate Returned(s: Stores, e: Event) {
    e.returned.Some? ==>
      e.commits == |Plan(e.op, e.answers, s)| && e.returned.value == ResultOf(e.op, e.answers, s)
  }

  /** Every operation that returned was whole, on the stores that it found. */
  ghost predicate ReturnsAreComplete(s: Stores, log: seq<Event>) {
    log == [] || (ReturnsAreComplete(s, Init(log)) && Returned(Replay(s, Init(log)), Last(log)))
  }

  // ---- the state every commit point keeps ---------------------------------

  predicate DistinctKeys(items: seq<Item>) {
    forall i, j :: 0 <= i < j < |items| ==> items[i].key != items[j].key
  }

  predicate GoodQueue(items: seq<Item>) {
    && |items| <= QUEUE_CAP
    && DistinctKeys(items)
    && forall i :: 0 <= i < |items| ==> items[i].attempts < MAX_ATTEMPTS
  }

  predicate GoodDead(dead: seq<DeadItem>) {
    forall i :: 0 <= i < |dead| ==> dead[i].attempts == MAX_ATTEMPTS
  }

  predicate Good(s: Stores) {
    GoodQueue(s.queue) && GoodDead(s.dead)
  }

  /** A plan has at most two writes, so there are three commit points at most. */
  lemma CommitPoints(s: Stores, plan: seq<Commit>, n: nat)
    requires |plan| <= 2
    ensures WriteFirst(s, plan, n) ==
      if n == 0 || plan == [] then s
      else if n == 1 || |plan| == 1 then Write(s, plan[0])
      else Write(Write(s, plan[0]), plan[1])
  {
    if |plan| == 2 && n > 1 {
      assert plan[1..] == [plan[1]];
      assert WriteFirst(Write(s, plan[0]), [plan[1]], n - 1) == Write(Write(s, plan[0]), plan[1]);
    }
  }

  lemma AppendKeepsGood(items: seq<Item>, x: Item)
    requires GoodQueue(items) && !Pending(items, x.key) && x.attempts < MAX_ATTEMPTS
    ensures GoodQueue(Capped(items + [x]))
  {
  }

  lemma DistinctGrows(items: seq<Item>, x: Item)
    requires DistinctKeys(items) && forall i :: 0 <= i < |items| ==> items[i].key != x.key
    ensures DistinctKeys(items + [x])
  {
  }

  /** What is kept of an item is under its key, and has attempts left. */
  lemma KeptIsItsItem(item: Item, outcome: Outcome)
    ensures Kept(item, outcome) == [] ||
      (|Kept(item, outcome)| == 1 && Kept(item, outcome)[0].key == item.key
       && Kept(item, outcome)[0].attempts < MAX_ATTEMPTS)
  {
  }

  lemma {:induction false} KeptComesFromQueue(items: seq<Item>, answers: seq<Outcome>, n: nat)
    requires n <= |items| && DistinctKeys(items)
    ensures var k := KeptOf(items, answers, n);
      |k| <= n && DistinctKeys(k)
      && forall i :: 0 <= i < |k| ==> k[i].attempts < MAX_ATTEMPTS && k[i].key in QueueKeys(items[..n])
  {
    if n > 0 {
      KeptComesFromQueue(items, answers, n - 1);
      KeysBefore(items, n - 1);
      KeptIsItsItem(items[n - 1], Answer(answers, n - 1));
      var before, last := KeptOf(items, answers, n - 1), Kept(items[n - 1], Answer(answers, n - 1));
      if last == [] {
        assert before + last == before;
      } else {
        assert before + last == before + [last[0]];
        DistinctGrows(before, last[0]);
      }
    }
  }

  /** The key of item `n` is none of the keys before it, if keys are distinct. */
  lemma KeysBefore(items: seq<Item>, n: nat)
    requires n < |items|
    ensures QueueKeys(items[..n + 1]) == QueueKeys(items[..n]) + {items[n].key}
    ensures DistinctKeys(items) ==> items[n].key !in QueueKeys(items[..n])
  {
    forall i | 0 <= i < n
      ensures items[i].key in QueueKeys(items[..n + 1])
    {
      assert items[..n + 1][i] == items[i];
    }
    assert items[..n + 1][n] == items[n];
    forall i | 0 <= i < n
      ensures items[i].key in QueueKeys(items[..n])
    {
      assert items[..n][i] == items[i];
    }
  }

  lemma {:induction false} ExhaustedIsGood(items: seq<Item>, answers: seq<Outcome>, n: nat)
    requires n <= |items|
    requires forall i :: 0 <= i < |items| ==> items[i].attempts < MAX_ATTEMPTS
    ensures GoodDead(ExhaustedOf(items, answers, n))
  {
    if n > 0 { ExhaustedIsGood(items, answers, n - 1); }
  }

  lemma FlushKeepsGood(items: seq<Item>, answers: seq<Outcome>)
    requires GoodQueue(items)
    ensures GoodQueue(Flushed(items, answers).remaining)
    ensures GoodDead(Flushed(items, answers).exhausted)
  {
    var r := FirstRevoked(items, answers);
    FlushStopsAtRevocation(items, answers);
    KeptComesFromQueue(items, answers, r);
    ExhaustedIsGood(items, answers, r);
    assert forall j :: 0 <= j < r ==> items[..r][j] == items[j];
  }

  lemma EnqueueKeepsGood(s: Stores, e: Event)
    requires Good(s) && e.op.Enqueue?
    ensures Good(After(s, e))
  {
    CommitPoints(s, Plan(e.op, e.answers, s), e.commits);
    if !Pending(s.queue, e.op.key) { AppendKeepsGood(s.queue, Fresh(e.op.key, e.op.capture, e.op.now)); }
  }

  lemma RetryKeepsGood(s: Stores, e: Event)
    requires Good(s) && e.op.RetryDead?
    ensures Good(After(s, e))
  {
    var i := FindDead(s.dead, e.op.key);
    CommitPoints(s, Plan(e.op, e.answers, s), e.commits);
    if i < |s.dead| && !Pending(s.queue, s.dead[i].key) { AppendKeepsGood(s.queue, Requeued(s.dead[i])); }
  }

  /** Every commit point of every operation keeps the store invariant. */
  lemma AfterKeepsGood(s: Stores, e: Event)
    requires Good(s)
    ensures Good(After(s, e))
  {
    match e.op
    case Enqueue(_, _, _) => EnqueueKeepsGood(s, e);
    case Flush =>
      FlushKeepsGood(s.queue, e.answers);
      CommitPoints(s, Plan(e.op, e.answers, s), e.commits);
    case RetryDead(_) => RetryKeepsGood(s, e);
    case DiscardDead(_) => CommitPoints(s, Plan(e.op, e.answers, s), e.commits);
  }

  /** In every history, at every commit point: bounded, distinct keys, bounded attempts. */
  lemma {:induction false} ReplayKeepsGood(s: Stores, log: seq<Event>)
    requires Good(s)
    ensures Good(Replay(s, log))
  {
    if log != [] {
      ReplayKeepsGood(s, Init(log));
      AfterKeepsGood(Replay(s, Init(log)), Last(log));
    }
  }

  /** Adding at the cap sheds the oldest item and nothing else, and the new item stays. */
  lemma CapShedsOnlyTheOldest(items: seq<Item>, x: Item)
    requires |items| <= QUEUE_CAP
    ensures Capped(items + [x]) == (if |items| < QUEUE_CAP then items else items[1..]) + [x]
    ensures ShedKeys(items + [x]) == if |items| < QUEUE_CAP then {} else {items[0].key}
  {
    if |items| == QUEUE_CAP {
      assert (items + [x])[..1] == [items[0]];
      assert [items[0]][0].key in QueueKeys([items[0]]);
      assert QueueKeys([items[0]]) == {items[0].key};
    }
  }

  // ---- nothing is lost ------------------------------------------------------

  /** Keys the server took or refused for good, as far as the uploads got. */
  ghost function ServerSettled(items: seq<Item>, answers: seq<Outcome>, n: nat): set<string>
    requires n <= |items|
  {
    set i | 0 <= i < n && (Answer(answers, i) == Accepted || Answer(answers, i) == Drop) :: items[i].key
  }

  /** Keys an event puts into the stores. */
  ghost function Admitted(s: Stores, e: Event): set<string> {
    if e.op.Enqueue? && e.commits > 0 then {e.op.key} else {}
  }

  /** Keys an event is allowed to take out: server verdict, cap shed, operator discard. */
  ghost function Departed(s: Stores, e: Event): set<string> {
    match e.op
    case Flush => ServerSettled(s.queue, e.answers, FirstRevoked(s.queue, e.answers))
    case Enqueue(key, capture, now) =>
      if e.commits > 0 && !Pending(s.queue, key) then ShedKeys(s.queue + [Fresh(key, capture, now)]) else {}
    case RetryDead(key) =>
      var i := FindDead(s.dead, key);
      if e.commits > 0 && i < |s.dead| && !Pending(s.queue, key) then ShedKeys(s.queue + [Requeued(s.dead[i])]) else {}
    case DiscardDead(key) =>
      if e.commits > 0 then {key} else {}
  }

  lemma QueueKeysConcat(a: seq<Item>, b: seq<Item>)
    ensures QueueKeys(a + b) == QueueKeys(a) + QueueKeys(b)
  {
    forall i | 0 <= i < |a| ensures a[i].key in QueueKeys(a + b) { assert (a + b)[i] == a[i]; }
    forall i | 0 <= i < |b| ensures b[i].key in QueueKeys(a + b) { assert (a + b)[|a| + i] == b[i]; }
  }

  /** What an upload that is not revoked dead-letters. */
  function Gone(item: Item, outcome: Outcome): seq<DeadItem> {
    if outcome == Retry && item.attempts + 1 >= MAX_ATTEMPTS then [Exhausted(item)] else []
  }

  /** One upload settles, keeps or dead-letters its item. */
  lemma UploadAccountsFor(item: Item, outcome: Outcome)
    requires outcome == Retry
    ensures item.key in QueueKeys(Kept(item, outcome)) + DeadKeys(Gone(item, outcome))
  {
    var kept, gone := Kept(item, outcome), Gone(item, outcome);
    if kept != [] { assert kept[0].key == item.key; } else { assert gone[0].key == item.key; }
  }

  lemma {:induction false} TriedItemIsAccountedFor(items: seq<Item>, answers: seq<Outcome>, n: nat, i: nat)
    requires i < n <= FirstRevoked(items, answers)
    ensures items[i].key in
      ServerSettled(items, answers, n) + QueueKeys(KeptOf(items, answers, n)) + DeadKeys(ExhaustedOf(items, answers, n))
  {
    var item, outcome := items[n - 1], Answer(answers, n - 1);
    QueueKeysConcat(KeptOf(items, answers, n - 1), Kept(item, outcome));
    DeadKeysConcat(ExhaustedOf(items, answers, n - 1), Gone(item, outcome));
    if i < n - 1 {
      TriedItemIsAccountedFor(items, answers, n - 1, i);
    } else if outcome == Retry {
      UploadAccountsFor(item, outcome);
    }
  }

  lemma FlushAccountsForQueue(items: seq<Item>, answers: seq<Outcome>)
    ensures var t := Flushed(items, answers);
      QueueKeys(items) <= ServerSettled(items, answers, FirstRevoked(items, answers)) + QueueKeys(t.remaining)
        + DeadKeys(t.exhausted)
  {
    var t := Flushed(items, answers);
    var r := FirstRevoked(items, answers);
    FlushStopsAtRevocation(items, answers);
    forall i | 0 <= i < |items|
      ensures items[i].key in ServerSettled(items, answers, r) + QueueKeys(t.remaining) + DeadKeys(t.exhausted)
    {
      var kept := KeptOf(items, answers, r);
      if i < r {
        TriedItemIsAccountedFor(items, answers, r, i);
        assert forall j :: 0 <= j < |kept| ==> kept[j] == t.remaining[j];
      } else {
        assert t.remaining[|kept| + (i - r)] == items[i];
      }
    }
  }

  lemma DeadKeysConcat(a: seq<DeadItem>, b: seq<DeadItem>)
    ensures DeadKeys(a + b) == DeadKeys(a) + DeadKeys(b)
  {
    forall i | 0 <= i < |a| ensures a[i].key in DeadKeys(a + b) { assert (a + b)[i] == a[i]; }
    forall i | 0 <= i < |b| ensures b[i].key in DeadKeys(a + b) { assert (a + b)[|a| + i] == b[i]; }
  }

  lemma RemovingOneDead(dead: seq<DeadItem>, i: nat)
    requires i < |dead|
    ensures DeadKeys(dead) <= DeadKeys(Without(dead, i)) + {dead[i].key}
  {
    forall j | 0 <= j < |dead| && j != i
      ensures dead[j].key in DeadKeys(Without(dead, i))
    {
      assert dead[j] == Without(dead, i)[if j < i then j else j - 1];
    }
  }

  lemma AddingCapped(items: seq<Item>, x: Item)
    ensures QueueKeys(items) <= QueueKeys(Capped(items + [x])) + ShedKeys(items + [x])
    ensures x.key in QueueKeys(Capped(items + [x]))
  {
    var all := items + [x];
    var kept := Capped(all);
    var cut := |all| - |kept|;
    assert kept == all[cut..];
    assert kept[|kept| - 1] == x;
    forall i | 0 <= i < |items|
      ensures items[i].key in QueueKeys(kept) + ShedKeys(all)
    {
      if i < cut { assert all[..cut][i] == items[i]; } else { assert kept[i - cut] == items[i]; }
    }
  }

  /**
    No commit point of any operation drops a key: what was stored or is being
    admitted is still in one of the two stores, or left for a stated reason.
   */
  lemma AfterLosesNothing(s: Stores, e: Event)
    ensures Keys(s) + Admitted(s, e) <= Keys(After(s, e)) + Departed(s, e)
  {
    var plan := Plan(e.op, e.answers, s);
    match e.op
    case Enqueue(key, capture, now) =>
      if Pending(s.queue, key) {
        assert key in QueueKeys(s.queue);
      } else {
        AddingCapped(s.queue, Fresh(key, capture, now));
        CommitPoints(s, plan, e.commits);
      }
    case Flush =>
      FlushAccountsForQueue(s.queue, e.answers);
      DeadKeysConcat(s.dead, Flushed(s.queue, e.answers).exhausted);
      CommitPoints(s, plan, e.commits);
    case RetryDead(key) =>
      var i := FindDead(s.dead, key);
      if i < |s.dead| {
        RemovingOneDead(s.dead, i);
        if Pending(s.queue, key) {
          assert key in QueueKeys(s.queue);
        } else {
          AddingCapped(s.queue, Requeued(s.dead[i]));
        }
        CommitPoints(s, plan, e.commits);
      }
    case DiscardDead(key) =>
      var i := FindDead(s.dead, key);
      if i < |s.dead| {
        RemovingOneDead(s.dead, i);
        CommitPoints(s, plan, e.commits);
      }
  }

  lemma CappedKeys(items: seq<Item>)
    ensures QueueKeys(Capped(items)) <= QueueKeys(items)
  {
    var kept := Capped(items);
    forall i | 0 <= i < |kept|
      ensures kept[i].key in QueueKeys(items)
    {
      assert kept[i] == items[|items| - |kept| + i];
    }
  }

  lemma OneMoreKey(items: seq<Item>, x: Item)
    ensures QueueKeys(items + [x]) == QueueKeys(items) + {x.key}
  {
    KeysBefore(items + [x], |items|);
    assert (items + [x])[..|items|] == items && (items + [x])[..|items| + 1] == items + [x];
  }

  lemma DeliverTakesFrom(t: Tally, x: Item, outcome: Outcome)
    ensures var t' := Deliver(t, x, outcome);
      QueueKeys(t'.remaining) + DeadKeys(t'.exhausted) <= QueueKeys(t.remaining) + DeadKeys(t.exhausted) + {x.key}
  {
    OneMoreKey(t.remaining, x);
    OneMoreKey(t.remaining, x.(attempts := x.attempts + 1));
    DeadKeysConcat(t.exhausted, [Exhausted(x)]);
  }

  lemma {:induction false} FlushTakesFrom(items: seq<Item>, answers: seq<Outcome>, n: nat)
    requires n <= |items|
    ensures var t := Delivered(items, answers, n);
      QueueKeys(t.remaining) + DeadKeys(t.exhausted) <= QueueKeys(items[..n])
  {
    if n > 0 {
      FlushTakesFrom(items, answers, n - 1);
      KeysBefore(items, n - 1);
      DeliverTakesFrom(Delivered(items, answers, n - 1), items[n - 1], Answer(answers, n - 1));
    }
  }

  lemma WithoutKeys(dead: seq<DeadItem>, i: nat)
    requires i < |dead|
    ensures DeadKeys(Without(dead, i)) <= DeadKeys(dead)
  {
    var rest := Without(dead, i);
    forall j | 0 <= j < |rest|
      ensures rest[j].key in DeadKeys(dead)
    {
      assert rest[j] == dead[if j < i then j else j + 1];
    }
  }

  /** No commit point of any operation stores a key that was neither stored nor admitted. */
  lemma AfterInventsNothing(s: Stores, e: Event)
    ensures Keys(After(s, e)) <= Keys(s) + Admitted(s, e)
  {
    CommitPoints(s, Plan(e.op, e.answers, s), e.commits);
    match e.op
    case Enqueue(key, capture, now) =>
      OneMoreKey(s.queue, Fresh(key, capture, now));
      CappedKeys(s.queue + [Fresh(key, capture, now)]);
    case Flush =>
      FlushTakesFrom(s.queue, e.answers, |s.queue|);
      assert s.queue[..|s.queue|] == s.queue;
      DeadKeysConcat(s.dead, Flushed(s.queue, e.answers).exhausted);
    case RetryDead(key) =>
      var i := FindDead(s.dead, key);
      if i < |s.dead| {
        assert s.dead[i].key in DeadKeys(s.dead);
        OneMoreKey(s.queue, Requeued(s.dead[i]));
        CappedKeys(s.queue + [Requeued(s.dead[i])]);
        WithoutKeys(s.dead, i);
      }
    case DiscardDead(key) =>
      if FindDead(s.dead, key) < |s.dead| { WithoutKeys(s.dead, FindDead(s.dead, key)); }
  }

  /** The stores that event `n` of the history found. */
  function Before(s: Stores, log: seq<Event>, n: nat): Stores
    requires n <= |log|
  {
    Replay(s, log[..n])
  }

  /** Event `n` of the history takes the key out of the stores, for a stated reason, and it never comes back. */
  ghost predicate LeftAt(s: Stores, log: seq<Event>, n: nat, key: string) {
    && n < |log|
    && (key in Keys(Before(s, log, n)) || key in Admitted(Before(s, log, n), log[n]))
    && key in Departed(Before(s, log, n), log[n])
    && forall p :: n < p <= |log| ==> key !in Keys(Before(s, log, p))
  }

  lemma EventLosesNothing(s: Stores, log: seq<Event>, n: nat)
    requires n < |log|
    ensures var found := Before(s, log, n);
      Keys(found) + Admitted(found, log[n]) <= Keys(Before(s, log, n + 1)) + Departed(found, log[n])
  {
    assert Init(log[..n + 1]) == log[..n] && Last(log[..n + 1]) == log[n];
    AfterLosesNothing(Before(s, log, n), log[n]);
  }

  /** The last place at which the flag is up, when it is up at `m` and down at the end. */
  lemma {:induction false} LastUp(flags: seq<bool>, m: nat) returns (n: nat)
    requires m < |flags| && flags[m] && !Last(flags)
    ensures m <= n < |flags| - 1 && flags[n] && forall p :: n < p < |flags| ==> !flags[p]
  {
    n := |flags| - 2;
    if !flags[n] { n := LastUp(Init(flags), m); }
  }

  ghost function StoredFlags(s: Stores, log: seq<Event>, key: string): (flags: seq<bool>)
    ensures |flags| == |log| + 1 && forall p :: 0 <= p < |flags| ==> flags[p] == (key in Keys(Before(s, log, p)))
  {
    seq(|log| + 1, p requires 0 <= p <= |log| => key in Keys(Before(s, log, p)))
  }

  /**
    A key that was stored before event `m`, or admitted by it, and is not stored at the end was
    taken out by one event since, which the server's verdict on it, the cap or a discard
    justifies on the stores that event found.
   */
  lemma NoKeyIsLost(s: Stores, log: seq<Event>, m: nat, key: string) returns (n: nat)
    requires m < |log| && key !in Keys(Replay(s, log))
    requires key in Keys(Before(s, log, m)) || key in Admitted(Before(s, log, m), log[m])
    ensures m <= n && LeftAt(s, log, n, key)
  {
    assert log[..|log|] == log;
    var flags := StoredFlags(s, log, key);
    if p: nat :| m <= p < |flags| && flags[p] {
      n := LastUp(flags, p);
    } else {
      n := m;
    }
    EventLosesNothing(s, log, n);
    assert forall p :: n < p <= |log| ==> !flags[p];
  }

  /** The reversed write order would lose a key: this is why flush saves the dead letters first. */
  lemma QueueFirstFlushLosesAKey(c: Capture)
    ensures var s := Stores([Item("k", c, MAX_ATTEMPTS - 1, "t")], []);
      var t := Flushed(s.queue, [Retry]);
      var cut := Write(s, SaveQueue(t.remaining));
      "k" in Keys(s) && "k" !in Keys(cut)
      && "k" !in ServerSettled(s.queue, [Retry], FirstRevoked(s.queue, [Retry]))
  {
    var x := Item("k", c, MAX_ATTEMPTS - 1, "t");
    var t := Flushed([x], [Retry]);
    assert Delivered([x], [Retry], 0) == NOTHING_YET;
    assert t.remaining == [];
    assert x.key in QueueKeys([x]) by { assert [x][0] == x; }
    assert Answer([Retry], 0) == Retry;
  }

  /** A crash between flush's two writes, then a full flush, dead-letters the same key twice. */
  lemma DeadLetterKeysMayRepeat(c: Capture)
    ensures var s := Stores([Item("k", c, MAX_ATTEMPTS - 1, "t")], []);
      var cut := After(s, Ran(Flush, [Retry], 1, None));
      var end := After(cut, Ran(Flush, [Retry], 2, Some(ResultOf(Flush, [Retry], cut))));
      |end.dead| == 2 && end.dead[0].key == end.dead[1].key
  {
    var x := Item("k", c, MAX_ATTEMPTS - 1, "t");
    var s := Stores([x], []);
    assert Delivered([x], [Retry], 0) == NOTHING_YET;
    var t := Flushed([x], [Retry]);
    assert t.exhausted == [Exhausted(x)] && t.remaining == [];
    CommitPoints(s, Plan(Flush, [Retry], s), 1);
    var cut := After(s, Ran(Flush, [Retry], 1, None));
    assert cut == Stores([x], [Exhausted(x)]);
    CommitPoints(cut, Plan(Flush, [Retry], cut), 2);
  }

  predicate DistinctDead(dead: seq<DeadItem>) {
    forall i, j :: 0 <= i < j < |dead| ==> dead[i].key != dead[j].key
  }

  lemma {:induction false} ExhaustedIsDistinct(items: seq<Item>, answers: seq<Outcome>, n: nat)
    requires n <= |items| && DistinctKeys(items)
    ensures DistinctDead(ExhaustedOf(items, answers, n))
    ensures DeadKeys(ExhaustedOf(items, answers, n)) <= QueueKeys(items[..n])
  {
    if n > 0 {
      ExhaustedIsDistinct(items, answers, n - 1);
      KeysBefore(items, n - 1);
      var before, now := ExhaustedOf(items, answers, n - 1), ExhaustedOf(items, answers, n);
      if now != before {
        assert now == before + [Exhausted(items[n - 1])];
        forall j | 0 <= j < |before|
          ensures before[j].key != items[n - 1].key
        {
          assert before[j].key in DeadKeys(before);
        }
        DeadKeysConcat(before, [Exhausted(items[n - 1])]);
      }
    }
  }

  lemma DistinctDeadConcat(a: seq<DeadItem>, b: seq<DeadItem>)
    ensures DistinctDead(a + b) <==> DistinctDead(a) && DistinctDead(b) && DeadKeys(a) !! DeadKeys(b)
  {
    var all := a + b;
    if DistinctDead(all) {
      forall i, j | 0 <= i < j < |a| ensures a[i].key != a[j].key { assert all[i] == a[i] && all[j] == a[j]; }
      forall i, j | 0 <= i < j < |b| ensures b[i].key != b[j].key {
        assert all[|a| + i] == b[i] && all[|a| + j] == b[j];
      }
      forall i, j | 0 <= i < |a| && 0 <= j < |b| ensures a[i].key != b[j].key {
        assert all[i] == a[i] && all[|a| + j] == b[j];
      }
    } else {
      var i, j :| 0 <= i < j < |all| && all[i].key == all[j].key;
      if i < |a| <= j { assert a[i].key in DeadKeys(a) && b[j - |a|].key in DeadKeys(b); }
    }
  }

  /** The upload of item `i` fails, and it was the item's last attempt. */
  predicate SpentAt(items: seq<Item>, answers: seq<Outcome>, i: nat)
    requires i < |items|
  {
    Answer(answers, i) == Retry && items[i].attempts + 1 >= MAX_ATTEMPTS
  }

  /** Item `i` spends its last attempt, and its key has a record already. */
  predicate RepeatsAt(s: Stores, answers: seq<Outcome>, i: nat)
    requires i < |s.queue|
  {
    && SpentAt(s.queue, answers, i)
    && exists j :: 0 <= j < |s.dead| && s.dead[j].key == s.queue[i].key
  }

  /** No item before the first revocation spends its last attempt under a key that has a record. */
  predicate AddsNewKeys(s: Stores, answers: seq<Outcome>) {
    forall i :: 0 <= i < FirstRevoked(s.queue, answers) ==> !RepeatsAt(s, answers, i)
  }

  /** The keys dead-lettered of the first `n` items are those of the items that spent their last attempt. */
  lemma {:induction false} ExhaustedKeys(items: seq<Item>, answers: seq<Outcome>, n: nat, key: string)
    requires n <= |items|
    ensures key in DeadKeys(ExhaustedOf(items, answers, n)) <==>
      exists i :: 0 <= i < n && SpentAt(items, answers, i) && items[i].key == key
  {
    if n > 0 {
      ExhaustedKeys(items, answers, n - 1, key);
      var before, last := ExhaustedOf(items, answers, n - 1), Exhausted(items[n - 1]);
      if SpentAt(items, answers, n - 1) {
        DeadKeysConcat(before, [last]);
        assert DeadKeys([last]) == {last.key} by { assert [last][0].key in DeadKeys([last]); }
        assert ExhaustedOf(items, answers, n) == before + [last];
      } else {
        assert ExhaustedOf(items, answers, n) == before;
      }
    }
  }

  lemma NewKeysAreApart(s: Stores, answers: seq<Outcome>)
    ensures AddsNewKeys(s, answers) <==> DeadKeys(s.dead) !! DeadKeys(Flushed(s.queue, answers).exhausted)
  {
    var r, gone := FirstRevoked(s.queue, answers), Flushed(s.queue, answers).exhausted;
    FlushStopsAtRevocation(s.queue, answers);
    forall i | 0 <= i < r && RepeatsAt(s, answers, i)
      ensures !(DeadKeys(s.dead) !! DeadKeys(gone))
    {
      ExhaustedKeys(s.queue, answers, r, s.queue[i].key);
      assert s.queue[i].key in DeadKeys(s.dead) && s.queue[i].key in DeadKeys(gone);
    }
    forall key | key in DeadKeys(s.dead) && key in DeadKeys(gone)
      ensures !AddsNewKeys(s, answers)
    {
      ExhaustedKeys(s.queue, answers, r, key);
      var i :| 0 <= i < r && SpentAt(s.queue, answers, i) && s.queue[i].key == key;
      assert RepeatsAt(s, answers, i);
    }
  }

  lemma FlushDeadKeys(s: Stores, answers: seq<Outcome>)
    requires DistinctKeys(s.queue)
    ensures DistinctDead(s.dead + Flushed(s.queue, answers).exhausted) <==>
      DistinctDead(s.dead) && AddsNewKeys(s, answers)
  {
    FlushStopsAtRevocation(s.queue, answers);
    ExhaustedIsDistinct(s.queue, answers, FirstRevoked(s.queue, answers));
    DistinctDeadConcat(s.dead, Flushed(s.queue, answers).exhausted);
    NewKeysAreApart(s, answers);
  }

  /**
    When dead-letter keys repeat: at every commit point of every operation they are distinct
    exactly if they were before, unless it is a flush that has made a write and in which an
    item spent its last attempt under a key that has a record already.
   */
  lemma DeadLetterKeysRepeatIff(s: Stores, e: Event)
    requires DistinctKeys(s.queue) && DistinctDead(s.dead)
    ensures DistinctDead(After(s, e).dead) <==> !e.op.Flush? || e.commits == 0 || AddsNewKeys(s, e.answers)
  {
    CommitPoints(s, Plan(e.op, e.answers, s), e.commits);
    if e.op.Flush? {
      var gone := Flushed(s.queue, e.answers).exhausted;
      FlushDeadKeys(s, e.answers);
      assert s.dead + [] == s.dead;
      assert After(s, e).dead == if e.commits == 0 then s.dead else s.dead + gone;
    }
  }

  /** A flush that makes all its writes, whatever the dead-letter keys were before. */
  lemma WholeFlushKeepsDeadKeysDistinctIff(s: Stores, answers: seq<Outcome>)
    requires DistinctKeys(s.queue)
    ensures DistinctDead(Complete(Flush, answers, s).dead) <==>
      DistinctDead(s.dead) && DeadKeys(s.dead) !! DeadKeys(Flushed(s.queue, answers).exhausted)
  {
    CompleteFlush(s, answers);
    FlushDeadKeys(s, answers);
    NewKeysAreApart(s, answers);
  }

  // ---- what a whole operation achieves --------------------------------------

  /** A completed flush grows the dead-letter store by exactly what it exhausted. */
  lemma CompleteFlush(s: Stores, answers: seq<Outcome>)
    ensures var t := Flushed(s.queue, answers);
      Complete(Flush, answers, s) == Stores(t.remaining, s.dead + t.exhausted)
  {
    var t := Flushed(s.queue, answers);
    var plan := Plan(Flush, answers, s);
    CommitPoints(s, plan, |plan|);
    assert s.dead + [] == s.dead;
  }

  /** A whole enqueue leaves its key pending. */
  lemma CompleteEnqueue(s: Stores, op: Op, answers: seq<Outcome>)
    requires op.Enqueue?
    ensures Pending(Complete(op, answers, s).queue, op.key)
  {
    CommitPoints(s, Plan(op, answers, s), |Plan(op, answers, s)|);
    AddingCapped(s.queue, Fresh(op.key, op.capture, op.now));
  }

  /** A retried record is pending again with a fresh budget, and exactly one of its records is gone. */
  lemma CompleteRetry(s: Stores, key: string)
    requires key in DeadKeys(s.dead)
    ensures var i := FindDead(s.dead, key);
      var end := Complete(RetryDead(key), [], s);
      && i < |s.dead| && end.dead == Without(s.dead, i)
      && end.queue == (if Pending(s.queue, key) then s.queue else Capped(s.queue + [Requeued(s.dead[i])]))
      && Pending(end.queue, key)
  {
    var i := FindDead(s.dead, key);
    var plan := Plan(RetryDead(key), [], s);
    CommitPoints(s, plan, |plan|);
    if !Pending(s.queue, key) { AddingCapped(s.queue, Requeued(s.dead[i])); }
  }

  /** Retry and discard change nothing exactly when no record has the key; otherwise one record goes. */
  lemma NothingToRetry(s: Stores, key: string)
    ensures key in DeadKeys(s.dead) <==> FindDead(s.dead, key) < |s.dead|
    ensures Complete(RetryDead(key), [], s) == s <==> key !in DeadKeys(s.dead)
    ensures Complete(DiscardDead(key), [], s) == s <==> key !in DeadKeys(s.dead)
    ensures key in DeadKeys(s.dead) ==>
      && |Complete(RetryDead(key), [], s).dead| == |s.dead| - 1
      && |Complete(DiscardDead(key), [], s).dead| == |s.dead| - 1
  {
    var i := FindDead(s.dead, key);
    if i < |s.dead| {
      assert s.dead[i].key in DeadKeys(s.dead);
      CompleteRetry(s, key);
      CommitPoints(s, Plan(DiscardDead(key), [], s), 1);
    }
  }

  /** Every whole operation keeps the store invariant. */
  lemma CompleteKeepsGood(s: Stores, op: Op, answers: seq<Outcome>)
    requires Good(s)
    ensures Good(Complete(op, answers, s))
  {
    AfterKeepsGood(s, Ran(op, answers, |Plan(op, answers, s)|, Some(ResultOf(op, answers, s))));
  }

  /** Enqueuing the same key again changes nothing: delivery is idempotent up to the key. */
  lemma EnqueueTwice(s: Stores, key: string, c: Capture, now: string, c': Capture, now': string)
    ensures var once := Complete(Enqueue(key, c, now), [], s);
      Complete(Enqueue(key, c', now'), [], once) == once
  {
    var plan := Plan(Enqueue(key, c, now), [], s);
    if plan != [] {
      AddingCapped(s.queue, Fresh(key, c, now));
      CommitPoints(s, plan, 1);
    }
  }
}
