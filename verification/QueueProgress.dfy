/** Repeated flushes: every upload that is not refused by a revocation spends an attempt, so the queue runs out. */
module QueueProgress {
  import opened Prelude
  import opened QueueOps

  // ---- progress ----------------------------------------------------------

  /** The delivery attempts the queue still has in it. */
  function Budget(items: seq<Item>): nat {
    if items == [] then 0
    else Budget(Init(items)) + (if Last(items).attempts < MAX_ATTEMPTS then MAX_ATTEMPTS - Last(items).attempts else 0)
  }

  lemma {:induction false} BudgetConcat(a: seq<Item>, b: seq<Item>)
    ensures Budget(a + b) == Budget(a) + Budget(b)
  {
    if b == [] {
      assert a + b == a;
    } else {
      assert Init(a + b) == a + Init(b);
      BudgetConcat(a, Init(b));
    }
  }

  lemma OneBudget(item: Item)
    requires item.attempts <= MAX_ATTEMPTS
    ensures Budget([item]) == MAX_ATTEMPTS - item.attempts
  {
    assert Init([item]) == [] && Last([item]) == item;
  }

  /** One upload that is not revoked costs its item at least one attempt. */
  lemma UploadCostsBudget(item: Item, outcome: Outcome)
    requires item.attempts < MAX_ATTEMPTS
    ensures Budget(Kept(item, outcome)) + 1 <= Budget([item])
  {
    OneBudget(item);
    OneBudget(item.(attempts := item.attempts + 1));
  }

  lemma PrefixBudget(items: seq<Item>, n: nat)
    requires 0 < n <= |items|
    ensures Budget(items[..n]) == Budget(items[..n - 1]) + Budget([items[n - 1]])
  {
    BudgetConcat(items[..n - 1], [items[n - 1]]);
    assert items[..n] == items[..n - 1] + [items[n - 1]];
  }

  lemma KeptBudget(items: seq<Item>, answers: seq<Outcome>, n: nat)
    requires 0 < n <= |items|
    ensures Budget(KeptOf(items, answers, n)) ==
      Budget(KeptOf(items, answers, n - 1)) + Budget(Kept(items[n - 1], Answer(answers, n - 1)))
  {
    BudgetConcat(KeptOf(items, answers, n - 1), Kept(items[n - 1], Answer(answers, n - 1)));
  }

  lemma {:induction false} KeptCostsBudget(items: seq<Item>, answers: seq<Outcome>, n: nat)
    requires n <= |items|
    requires forall i :: 0 <= i < |items| ==> items[i].attempts < MAX_ATTEMPTS
    ensures Budget(KeptOf(items, answers, n)) + n <= Budget(items[..n])
  {
    if n > 0 {
      KeptCostsBudget(items, answers, n - 1);
      UploadCostsBudget(items[n - 1], Answer(answers, n - 1));
      PrefixBudget(items, n);
      KeptBudget(items, answers, n);
    }
  }

  /** A flush spends at least one attempt for each upload it gets past. */
  lemma FlushSpendsBudget(items: seq<Item>, answers: seq<Outcome>)
    requires forall i :: 0 <= i < |items| ==> items[i].attempts < MAX_ATTEMPTS
    ensures Budget(Flushed(items, answers).remaining) + FirstRevoked(items, answers) <= Budget(items)
    ensures items != [] && Answer(answers, 0) != Revoked ==> Budget(Flushed(items, answers).remaining) < Budget(items)
  {
    var r := FirstRevoked(items, answers);
    FlushStopsAtRevocation(items, answers);
    KeptCostsBudget(items, answers, r);
    BudgetConcat(KeptOf(items, answers, r), items[r..]);
    BudgetConcat(items[..r], items[r..]);
    assert items == items[..r] + items[r..];
  }

  /** Repeated flushes with nothing else in between. */
  function FlushTimes(items: seq<Item>, rounds: seq<seq<Outcome>>): seq<Item>
    decreases |rounds|
  {
    if rounds == [] then items else FlushTimes(Flushed(items, rounds[0]).remaining, rounds[1..])
  }

  /** No round of the run ever gets a revocation from the server. */
  predicate NeverRevoked(items: seq<Item>, rounds: seq<seq<Outcome>>)
    decreases |rounds|
  {
    rounds == [] ||
    (FirstRevoked(items, rounds[0]) == |items|
     && NeverRevoked(Flushed(items, rounds[0]).remaining, rounds[1..]))
  }

  lemma {:induction false} KeptHasOneMoreAttempt(items: seq<Item>, answers: seq<Outcome>, n: nat, least: nat)
    requires n <= |items|
    requires forall i :: 0 <= i < |items| ==> least <= items[i].attempts
    ensures forall i :: 0 <= i < |KeptOf(items, answers, n)| ==>
      least + 1 <= KeptOf(items, answers, n)[i].attempts < MAX_ATTEMPTS
  {
    if n > 0 { KeptHasOneMoreAttempt(items, answers, n - 1, least); }
  }

  lemma {:induction false} RoundsExhaust(items: seq<Item>, rounds: seq<seq<Outcome>>, least: nat)
    requires NeverRevoked(items, rounds)
    requires forall i :: 0 <= i < |items| ==> least <= items[i].attempts < MAX_ATTEMPTS
    requires least + |rounds| >= MAX_ATTEMPTS
    ensures FlushTimes(items, rounds) == []
    decreases |rounds|
  {
    if rounds == [] {
      HeadOf(items);
    } else {
      FlushStopsAtRevocation(items, rounds[0]);
      KeptHasOneMoreAttempt(items, rounds[0], |items|, least);
      assert items[|items|..] == [];
      RoundsExhaust(Flushed(items, rounds[0]).remaining, rounds[1..], least + 1);
    }
  }

  /** MAX_ATTEMPTS flushes with no revocation empty the queue, whatever the server answers. */
  lemma FiveFlushesEmptyTheQueue(items: seq<Item>, rounds: seq<seq<Outcome>>)
    requires forall i :: 0 <= i < |items| ==> items[i].attempts < MAX_ATTEMPTS
    requires |rounds| == MAX_ATTEMPTS && NeverRevoked(items, rounds)
    ensures FlushTimes(items, rounds) == []
  {
    RoundsExhaust(items, rounds, 0);
  }
}
