/**
  What a flush makes of each pending item, said on the items and the answers alone, and what the
  retry budget of an item is worth over repeated flushes.
 */
module QueueDelivery {
  import opened Prelude
  import opened QueueOps
  import opened QueueHistory

  // ---- the uploads of one flush ---------------------------------------------

  /** The uploads among the first `n` that got this answer. */
  ghost function Answered(answers: seq<Outcome>, outcome: Outcome, n: nat): set<nat> {
    set i: nat | i < n && Answer(answers, i) == outcome
  }

  /** The failed uploads among the first `n` whose items have an attempt left: four failures or fewer. */
  ghost function Failed(items: seq<Item>, answers: seq<Outcome>, n: nat): set<nat>
    requires n <= |items|
  {
    set i: nat | i < n && Answer(answers, i) == Retry && items[i].attempts < 4
  }

  /** The failed uploads among the first `n` whose items have failed four times before. */
  ghost function FailedForGood(items: seq<Item>, answers: seq<Outcome>, n: nat): set<nat>
    requires n <= |items|
  {
    set i: nat | i < n && Answer(answers, i) == Retry && items[i].attempts >= 4
  }

  lemma OneMoreAnswer(answers: seq<Outcome>, outcome: Outcome, n: nat)
    requires n > 0
    ensures |Answered(answers, outcome, n)| ==
      |Answered(answers, outcome, n - 1)| + if Answer(answers, n - 1) == outcome then 1 else 0
  {
    assert Answered(answers, outcome, n) ==
      Answered(answers, outcome, n - 1) + if Answer(answers, n - 1) == outcome then {n - 1} else {};
  }

  lemma OneMoreFailure(items: seq<Item>, answers: seq<Outcome>, n: nat)
    requires 0 < n <= |items|
    ensures |Failed(items, answers, n)| == |Failed(items, answers, n - 1)|
      + if Answer(answers, n - 1) == Retry && items[n - 1].attempts < 4 then 1 else 0
    ensures |FailedForGood(items, answers, n)| == |FailedForGood(items, answers, n - 1)|
      + if Answer(answers, n - 1) == Retry && items[n - 1].attempts >= 4 then 1 else 0
  {
    assert Failed(items, answers, n) == Failed(items, answers, n - 1)
      + if Answer(answers, n - 1) == Retry && items[n - 1].attempts < 4 then {n - 1} else {};
    assert FailedForGood(items, answers, n) == FailedForGood(items, answers, n - 1)
      + if Answer(answers, n - 1) == Retry && items[n - 1].attempts >= 4 then {n - 1} else {};
  }

  /** The tally counts the answers to the first `n` uploads. */
  ghost predicate Counts(t: Tally, items: seq<Item>, answers: seq<Outcome>, n: nat)
    requires n <= |items|
  {
    && t.accepted == |Answered(answers, Accepted, n)| && t.dropped == |Answered(answers, Drop, n)|
    && t.retried == |t.remaining| == |Failed(items, answers, n)|
    && |t.exhausted| == |FailedForGood(items, answers, n)|
  }

  lemma DeliverCounts(t: Tally, items: seq<Item>, answers: seq<Outcome>, n: nat)
    requires 0 < n <= |items| && !t.revoked && Answer(answers, n - 1) != Revoked
    requires Counts(t, items, answers, n - 1)
    ensures Counts(Deliver(t, items[n - 1], Answer(answers, n - 1)), items, answers, n)
  {
    OneMoreAnswer(answers, Accepted, n);
    OneMoreAnswer(answers, Drop, n);
    OneMoreFailure(items, answers, n);
  }

  lemma {:induction false} CountsBeforeRevocation(items: seq<Item>, answers: seq<Outcome>, n: nat)
    requires n <= FirstRevoked(items, answers)
    ensures Counts(Delivered(items, answers, n), items, answers, n)
  {
    if n > 0 {
      CountsBeforeRevocation(items, answers, n - 1);
      FlushBeforeRevocation(items, answers, n - 1);
      DeliverCounts(Delivered(items, answers, n - 1), items, answers, n);
    }
  }

  lemma {:induction false} CountsStandAfterRevocation(items: seq<Item>, answers: seq<Outcome>, n: nat)
    requires FirstRevoked(items, answers) <= n <= |items|
    ensures var t, u := Delivered(items, answers, n), Delivered(items, answers, FirstRevoked(items, answers));
      t.accepted == u.accepted && t.dropped == u.dropped && t.retried == u.retried
  {
    var r := FirstRevoked(items, answers);
    if n > r {
      CountsStandAfterRevocation(items, answers, n - 1);
      if n - 1 > r { FlushAfterRevocation(items, answers, n - 1); } else { FlushBeforeRevocation(items, answers, r); }
    }
  }

  /** The counts a flush returns are the numbers of such answers before the first revocation. */
  lemma FlushCountsAnswers(items: seq<Item>, answers: seq<Outcome>)
    ensures var t, r := Flushed(items, answers), FirstRevoked(items, answers);
      && t.accepted == |Answered(answers, Accepted, r)| && t.dropped == |Answered(answers, Drop, r)|
      && t.retried == |Failed(items, answers, r)|
      && |t.exhausted| == |FailedForGood(items, answers, r)|
      && |t.remaining| == |Failed(items, answers, r)| + |items| - r
  {
    var r := FirstRevoked(items, answers);
    CountsBeforeRevocation(items, answers, r);
    CountsStandAfterRevocation(items, answers, |items|);
    FlushBeforeRevocation(items, answers, r);
    FlushStopsAtRevocation(items, answers);
  }

  // ---- where each item goes ---------------------------------------------------

  /** The tally lists failed item `i` in its place, with one more attempt on it. */
  ghost predicate Lists(t: Tally, items: seq<Item>, answers: seq<Outcome>, i: nat)
    requires i < |items|
  {
    var x, kept, gone := items[i], |Failed(items, answers, i)|, |FailedForGood(items, answers, i)|;
    if x.attempts < 4 then
      kept < |t.remaining| && t.remaining[kept] == Item(x.key, x.capture, x.attempts + 1, x.enqueuedAt)
    else
      && gone < |t.exhausted|
      && t.exhausted[gone] == DeadItem(x.key, x.capture, x.attempts + 1, x.enqueuedAt, "max_attempts_exhausted")
  }

  lemma DeliverLists(t: Tally, items: seq<Item>, answers: seq<Outcome>, n: nat)
    requires n < |items| && !t.revoked && Answer(answers, n) == Retry
    requires Counts(t, items, answers, n)
    ensures Lists(Deliver(t, items[n], Retry), items, answers, n)
  {
  }

  lemma DeliverStillLists(t: Tally, items: seq<Item>, answers: seq<Outcome>, i: nat, x: Item, outcome: Outcome)
    requires i < |items| && Lists(t, items, answers, i)
    ensures Lists(Deliver(t, x, outcome), items, answers, i)
  {
  }

  lemma {:induction false} ListedAt(items: seq<Item>, answers: seq<Outcome>, n: nat, i: nat)
    requires i < n <= FirstRevoked(items, answers) && Answer(answers, i) == Retry
    ensures Lists(Delivered(items, answers, n), items, answers, i)
  {
    FlushBeforeRevocation(items, answers, n - 1);
    if i < n - 1 {
      ListedAt(items, answers, n - 1, i);
      DeliverStillLists(Delivered(items, answers, n - 1), items, answers, i, items[n - 1], Answer(answers, n - 1));
    } else {
      CountsBeforeRevocation(items, answers, i);
      DeliverLists(Delivered(items, answers, i), items, answers, i);
    }
  }

  /**
    An item whose upload fails before any revocation is kept with one more attempt on it, after the
    ones kept before it, or after four failures it is recorded as a dead letter in the same way.
   */
  lemma FailedItemIsListed(items: seq<Item>, answers: seq<Outcome>, i: nat)
    requires i < FirstRevoked(items, answers) && Answer(answers, i) == Retry
    ensures Lists(Flushed(items, answers), items, answers, i)
  {
    var r := FirstRevoked(items, answers);
    ListedAt(items, answers, r, i);
    FlushBeforeRevocation(items, answers, r);
    FlushStopsAtRevocation(items, answers);
  }

  /** From the first revocation on, items stay as they were, behind the failed ones. */
  lemma UntriedItemStays(items: seq<Item>, answers: seq<Outcome>, i: nat)
    requires FirstRevoked(items, answers) <= i < |items|
    ensures var t, r := Flushed(items, answers), FirstRevoked(items, answers);
      var p := |Failed(items, answers, r)| + i - r;
      p < |t.remaining| && t.remaining[p] == items[i]
  {
    var r := FirstRevoked(items, answers);
    CountsBeforeRevocation(items, answers, r);
    FlushBeforeRevocation(items, answers, r);
    FlushStopsAtRevocation(items, answers);
  }

  // ---- the budget of one item -------------------------------------------------

  /** Whole flushes, one after the other, with nothing else in between. */
  function Rounds(s: Stores, rounds: seq<seq<Outcome>>): Stores {
    if rounds == [] then s else Complete(Flush, Last(rounds), Rounds(s, Init(rounds)))
  }

  /** The upload of the item with this key fails, before any revocation. */
  predicate FailsOn(items: seq<Item>, answers: seq<Outcome>, key: string) {
    exists i :: 0 <= i < FirstRevoked(items, answers) && items[i].key == key && Answer(answers, i) == Retry
  }

  /** It fails in every round. */
  predicate FailsEach(s: Stores, rounds: seq<seq<Outcome>>, key: string) {
    rounds == [] || (FailsEach(s, Init(rounds), key) && FailsOn(Rounds(s, Init(rounds)).queue, Last(rounds), key))
  }

  lemma FailureCostsOne(s: Stores, answers: seq<Outcome>, x: Item)
    requires Good(s) && x in s.queue && FailsOn(s.queue, answers, x.key)
    ensures var end := Complete(Flush, answers, s);
      if x.attempts < 4 then Item(x.key, x.capture, x.attempts + 1, x.enqueuedAt) in end.queue
      else DeadItem(x.key, x.capture, 5, x.enqueuedAt, "max_attempts_exhausted") in end.dead
  {
    var i :| 0 <= i < FirstRevoked(s.queue, answers) && s.queue[i].key == x.key && Answer(answers, i) == Retry;
    assert s.queue[i] == x;
    FailedItemIsListed(s.queue, answers, i);
    CompleteFlush(s, answers);
  }

  lemma {:induction false} KeptAreBelow(items: seq<Item>, answers: seq<Outcome>, n: nat, x: Item)
    requires n <= FirstRevoked(items, answers) && x in KeptOf(items, answers, n)
    ensures exists i :: 0 <= i < n && items[i].key == x.key && Answer(answers, i) == Retry && items[i].attempts < 4
  {
    if x in KeptOf(items, answers, n - 1) {
      KeptAreBelow(items, answers, n - 1, x);
    } else {
      assert x in Kept(items[n - 1], Answer(answers, n - 1));
    }
  }

  lemma KeptIsAnother(items: seq<Item>, answers: seq<Outcome>, i: nat, x: Item)
    requires DistinctKeys(items) && i < FirstRevoked(items, answers) && items[i].attempts >= 4
    requires x in KeptOf(items, answers, FirstRevoked(items, answers))
    ensures x.key != items[i].key
  {
    KeptAreBelow(items, answers, FirstRevoked(items, answers), x);
  }

  /** An item that failed for the fifth time is not pending any more. */
  lemma SpentIsNotPending(s: Stores, answers: seq<Outcome>, x: Item)
    requires Good(s) && x in s.queue && x.attempts >= 4 && FailsOn(s.queue, answers, x.key)
    ensures !Pending(Complete(Flush, answers, s).queue, x.key)
  {
    var items, r := s.queue, FirstRevoked(s.queue, answers);
    var i :| 0 <= i < r && items[i].key == x.key && Answer(answers, i) == Retry;
    CompleteFlush(s, answers);
    FlushStopsAtRevocation(items, answers);
    forall y | y in KeptOf(items, answers, r)
      ensures y.key != x.key
    {
      KeptIsAnother(items, answers, i, y);
    }
    forall y | y in items[r..]
      ensures y.key != x.key
    {
      var j :| r <= j < |items| && y == items[j];
    }
  }

  lemma {:induction false} RoundsKeepGood(s: Stores, rounds: seq<seq<Outcome>>)
    requires Good(s)
    ensures Good(Rounds(s, rounds))
  {
    if rounds != [] {
      RoundsKeepGood(s, Init(rounds));
      CompleteKeepsGood(Rounds(s, Init(rounds)), Flush, Last(rounds));
    }
  }

  lemma {:induction false} FailuresAddUp(s: Stores, rounds: seq<seq<Outcome>>, x: Item)
    requires Good(s) && x in s.queue && FailsEach(s, rounds, x.key) && x.attempts + |rounds| <= 4
    ensures Item(x.key, x.capture, x.attempts + |rounds|, x.enqueuedAt) in Rounds(s, rounds).queue
  {
    if rounds != [] {
      var x' := Item(x.key, x.capture, x.attempts + |rounds| - 1, x.enqueuedAt);
      FailuresAddUp(s, Init(rounds), x);
      RoundsKeepGood(s, Init(rounds));
      FailureCostsOne(Rounds(s, Init(rounds)), Last(rounds), x');
    }
  }

  /**
    A pending item that was never tried survives four failed uploads, one a flush, with its failures
    counted, and the fifth makes it a dead letter that is pending no more.
   */
  lemma FiveFailuresDeadLetter(s: Stores, rounds: seq<seq<Outcome>>, x: Item)
    requires Good(s) && x in s.queue && x.attempts == 0 && FailsEach(s, rounds, x.key) && |rounds| <= 5
    ensures var end := Rounds(s, rounds);
      if |rounds| < 5 then Item(x.key, x.capture, |rounds|, x.enqueuedAt) in end.queue
      else
        && DeadItem(x.key, x.capture, 5, x.enqueuedAt, "max_attempts_exhausted") in end.dead
        && !Pending(end.queue, x.key)
  {
    if |rounds| < 5 {
      FailuresAddUp(s, rounds, x);
    } else {
      FailuresAddUp(s, Init(rounds), x);
      RoundsKeepGood(s, Init(rounds));
      var x' := Item(x.key, x.capture, 4, x.enqueuedAt);
      FailureCostsOne(Rounds(s, Init(rounds)), Last(rounds), x');
      SpentIsNotPending(Rounds(s, Init(rounds)), Last(rounds), x');
    }
  }

  // ---- where an untried item comes from -----------------------------------------

  /** The oldest item goes when there are two hundred, and the new one is last. */
  lemma AddedLast(items: seq<Item>, x: Item)
    requires |items| <= 200
    ensures Capped(items + [x]) == (if |items| == 200 then items[1..] else items) + [x]
  {
  }

  /** A retried record that was not pending comes back last, never tried, and only the oldest may go for it. */
  lemma RetriedRecordIsUntried(s: Stores, key: string)
    requires |s.queue| <= 200 && key in DeadKeys(s.dead) && !Pending(s.queue, key)
    ensures var i := FindDead(s.dead, key);
      && i < |s.dead|
      && Complete(RetryDead(key), [], s).queue ==
           (if |s.queue| == 200 then s.queue[1..] else s.queue)
           + [Item(key, s.dead[i].capture, 0, s.dead[i].enqueuedAt)]
  {
    CompleteRetry(s, key);
    AddedLast(s.queue, Requeued(s.dead[FindDead(s.dead, key)]));
  }

  /** A new capture comes last, never tried, and only the oldest may go for it. */
  lemma EnqueuedItemIsUntried(s: Stores, key: string, capture: Capture, now: string)
    requires |s.queue| <= 200 && !Pending(s.queue, key)
    ensures Complete(Enqueue(key, capture, now), [], s).queue ==
      (if |s.queue| == 200 then s.queue[1..] else s.queue) + [Item(key, capture, 0, now)]
  {
    CommitPoints(s, Plan(Enqueue(key, capture, now), [], s), 1);
    AddedLast(s.queue, Fresh(key, capture, now));
  }

  /**
    A retried record that was not pending has all five attempts again: its capture is pending with
    each failure counted through four of them, and dead-lettered by the fifth.
   */
  lemma RetryBuysFiveAttempts(s: Stores, key: string, rounds: seq<seq<Outcome>>)
    requires Good(s) && key in DeadKeys(s.dead) && !Pending(s.queue, key)
    requires FailsEach(Complete(RetryDead(key), [], s), rounds, key) && |rounds| <= 5
    ensures var i := FindDead(s.dead, key);
      var end := Rounds(Complete(RetryDead(key), [], s), rounds);
      && i < |s.dead|
      && var c, t := s.dead[i].capture, s.dead[i].enqueuedAt;
      if |rounds| < 5 then Item(key, c, |rounds|, t) in end.queue
      else DeadItem(key, c, 5, t, "max_attempts_exhausted") in end.dead && !Pending(end.queue, key)
  {
    RetriedRecordIsUntried(s, key);
    CompleteKeepsGood(s, RetryDead(key), []);
    var d := s.dead[FindDead(s.dead, key)];
    FiveFailuresDeadLetter(Complete(RetryDead(key), [], s), rounds, Item(key, d.capture, 0, d.enqueuedAt));
  }

  /** A new capture has five attempts as well. */
  lemma EnqueueBuysFiveAttempts(s: Stores, key: string, capture: Capture, now: string, rounds: seq<seq<Outcome>>)
    requires Good(s) && !Pending(s.queue, key)
    requires FailsEach(Complete(Enqueue(key, capture, now), [], s), rounds, key) && |rounds| <= 5
    ensures var end := Rounds(Complete(Enqueue(key, capture, now), [], s), rounds);
      if |rounds| < 5 then Item(key, capture, |rounds|, now) in end.queue
      else DeadItem(key, capture, 5, now, "max_attempts_exhausted") in end.dead && !Pending(end.queue, key)
  {
    EnqueuedItemIsUntried(s, key, capture, now);
    CompleteKeepsGood(s, Enqueue(key, capture, now), []);
    FiveFailuresDeadLetter(Complete(Enqueue(key, capture, now), [], s), rounds, Item(key, capture, 0, now));
  }
}
