/**
  The offline upload queue, one operation at a time.

  Two stores are committed separately: the pending queue and the dead-letter
  list. Every operation is described by its plan, the list of store writes it
  makes in order. A whole operation applies its whole plan. A worker that is
  killed, or a storage call that rejects, leaves a prefix of the plan applied.
 */
module QueueOps {
  import opened Prelude

  const QUEUE_CAP: nat := 200
  const MAX_ATTEMPTS: nat := 5

  /** The allow-listed upload body; its contents are never looked into here. */
  datatype Capture = Capture(body: string)

  /** What one upload attempt ends in. */
  datatype Outcome = Accepted | Revoked | Retry | Drop

  datatype Item = Item(key: string, capture: Capture, attempts: nat, enqueuedAt: string)

  datatype DeadItem = DeadItem(key: string, capture: Capture, attempts: nat, enqueuedAt: string, reason: string)

  datatype Stores = Stores(queue: seq<Item>, dead: seq<DeadItem>)

  /** The key of an enqueue is the dedup hash of its capture: two captures may share one. */
  datatype Op =
    | Enqueue(key: string, capture: Capture, now: string)
    | Flush
    | RetryDead(key: string)
    | DiscardDead(key: string)

  /** One write to one of the two stores. */
  datatype Commit = SaveQueue(queue: seq<Item>) | SaveDead(dead: seq<DeadItem>)

  // ---- keys -------------------------------------------------------------

  predicate Pending(items: seq<Item>, key: string) {
    exists i :: 0 <= i < |items| && items[i].key == key
  }

  ghost function QueueKeys(items: seq<Item>): set<string> {
    set i | 0 <= i < |items| :: items[i].key
  }

  ghost function DeadKeys(dead: seq<DeadItem>): set<string> {
    set i | 0 <= i < |dead| :: dead[i].key
  }

  ghost function Keys(s: Stores): set<string> {
    QueueKeys(s.queue) + DeadKeys(s.dead)
  }

  /** The position of the first dead-letter record with this key, or the length when there is none. */
  function FindDead(dead: seq<DeadItem>, key: string): (i: nat)
    ensures i <= |dead|
    ensures i < |dead| ==> dead[i].key == key
    ensures forall j :: 0 <= j < i ==> dead[j].key != key
  {
    if dead == [] || dead[0].key == key then 0 else 1 + FindDead(dead[1..], key)
  }

  function Without<T>(s: seq<T>, i: nat): (rest: seq<T>)
    requires i < |s|
    ensures |rest| == |s| - 1
    ensures forall j :: 0 <= j < |rest| ==> rest[j] == if j < i then s[j] else s[j + 1]
  {
    s[..i] + s[i + 1..]
  }

  // ---- the cap ----------------------------------------------------------

  /** The newest items that fit under the cap. */
  function Capped(items: seq<Item>): (kept: seq<Item>)
    ensures |kept| == Min(|items|, QUEUE_CAP)
    ensures exists k :: 0 <= k <= |items| && kept == items[k..]
  {
    if |items| > QUEUE_CAP then items[|items| - QUEUE_CAP..] else items[0..]
  }

  /** The keys the cap removes from `items`. */
  ghost function ShedKeys(items: seq<Item>): set<string> {
    if |items| > QUEUE_CAP then QueueKeys(items[..|items| - QUEUE_CAP]) else {}
  }

  // ---- flush ------------------------------------------------------------

  /** The accumulators of the delivery loop. */
  datatype Tally = Tally(
    remaining: seq<Item>, exhausted: seq<DeadItem>,
    accepted: nat, retried: nat, dropped: nat, revoked: bool)

  /** The server's answer to the i-th upload; an upload that got no answer delivered nothing. */
  function Answer(answers: seq<Outcome>, i: nat): Outcome {
    if i < |answers| then answers[i] else Revoked
  }

  function Exhausted(item: Item): DeadItem {
    DeadItem(item.key, item.capture, item.attempts + 1, item.enqueuedAt, "max_attempts_exhausted")
  }

  function Deliver(t: Tally, item: Item, outcome: Outcome): Tally {
    if t.revoked then t.(remaining := t.remaining + [item])
    else match outcome
      case Accepted => t.(accepted := t.accepted + 1)
      case Drop => t.(dropped := t.dropped + 1)
      case Revoked => t.(revoked := true, remaining := t.remaining + [item])
      case Retry =>
        if item.attempts + 1 >= MAX_ATTEMPTS
        then t.(exhausted := t.exhausted + [Exhausted(item)])
        else t.(remaining := t.remaining + [item.(attempts := item.attempts + 1)], retried := t.retried + 1)
  }

  const NOTHING_YET := Tally([], [], 0, 0, 0, false)

  /** The accumulators after the first `n` items. */
  function Delivered(items: seq<Item>, answers: seq<Outcome>, n: nat): Tally
    requires n <= |items|
  {
    if n == 0 then NOTHING_YET
    else Deliver(Delivered(items, answers, n - 1), items[n - 1], Answer(answers, n - 1))
  }

  function Flushed(items: seq<Item>, answers: seq<Outcome>): Tally {
    Delivered(items, answers, |items|)
  }

  // ---- plans ------------------------------------------------------------

  function Fresh(key: string, capture: Capture, now: string): Item {
    Item(key, capture, 0, now)
  }

  function Requeued(d: DeadItem): Item {
    Item(d.key, d.capture, 0, d.enqueuedAt)
  }

  /** The writes an operation makes, in order, when it starts from `s`. */
  function Plan(op: Op, answers: seq<Outcome>, s: Stores): seq<Commit> {
    match op
    case Enqueue(key, capture, now) =>
      if Pending(s.queue, key) then []
      else [SaveQueue(Capped(s.queue + [Fresh(key, capture, now)]))]
    case Flush =>
      var t := Flushed(s.queue, answers);
      (if |t.exhausted| > 0 then [SaveDead(s.dead + t.exhausted)] else []) + [SaveQueue(t.remaining)]
    case RetryDead(key) =>
      var i := FindDead(s.dead, key);
      if i == |s.dead| then []
      else
        (if Pending(s.queue, s.dead[i].key) then []
         else [SaveQueue(Capped(s.queue + [Requeued(s.dead[i])]))])
        + [SaveDead(Without(s.dead, i))]
    case DiscardDead(key) =>
      var i := FindDead(s.dead, key);
      if i == |s.dead| then [] else [SaveDead(Without(s.dead, i))]
  }

  function Write(s: Stores, c: Commit): Stores {
    match c
    case SaveQueue(q) => s.(queue := q)
    case SaveDead(d) => s.(dead := d)
  }

  /** The stores after the first `n` writes of a plan. */
  function WriteFirst(s: Stores, plan: seq<Commit>, n: nat): Stores
    decreases |plan|
  {
    if n == 0 || plan == [] then s
    else WriteFirst(Write(s, plan[0]), plan[1..], n - 1)
  }

  function Complete(op: Op, answers: seq<Outcome>, s: Stores): Stores {
    var plan := Plan(op, answers, s);
    WriteFirst(s, plan, |plan|)
  }

  // ---- results ------------------------------------------------------------

  datatype EnqueueResult = EnqueueResult(enqueued: bool, deduped: bool, shed: bool)

  datatype FlushResult = FlushResult(
    accepted: nat, retried: nat, dropped: nat, deadLettered: nat, revoked: bool, remaining: nat)

  datatype RetryResult = RetryResult(moved: bool, shed: bool)

  datatype Result =
    OfEnqueue(enqueue: EnqueueResult) | OfFlush(flush: FlushResult) | OfRetry(retry: RetryResult)
      | OfDiscard(removed: bool)

  /** What an operation tells its caller when it runs on `s` from beginning to end. */
  function ResultOf(op: Op, answers: seq<Outcome>, s: Stores): Result {
    match op
    case Enqueue(key, _, _) =>
      var pending := Pending(s.queue, key);
      OfEnqueue(EnqueueResult(!pending, pending, !pending && |s.queue| >= QUEUE_CAP))
    case Flush =>
      var t := Flushed(s.queue, answers);
      OfFlush(FlushResult(t.accepted, t.retried, t.dropped, |t.exhausted|, t.revoked, |t.remaining|))
    case RetryDead(key) =>
      var moved := FindDead(s.dead, key) < |s.dead|;
      OfRetry(RetryResult(moved, moved && !Pending(s.queue, key) && |s.queue| >= QUEUE_CAP))
    case DiscardDead(key) => OfDiscard(FindDead(s.dead, key) < |s.dead|)
  }

  // ---- what a flush does to the items ------------------------------------

  /** Flush never loses count: each item is accepted, dropped, dead-lettered or kept. */
  lemma {:induction false} FlushConserves(items: seq<Item>, answers: seq<Outcome>, n: nat)
    requires n <= |items|
    ensures var t := Delivered(items, answers, n);
      t.accepted + t.dropped + |t.exhausted| + |t.remaining| == n
      && t.retried <= |t.remaining|
  {
    if n > 0 { FlushConserves(items, answers, n - 1); }
  }

  /** The position of the first item whose upload answered `revoked`, or the length. */
  function FirstRevoked(items: seq<Item>, answers: seq<Outcome>): (r: nat)
    ensures r <= |items|
    ensures r < |items| ==> Answer(answers, r) == Revoked
    ensures forall i :: 0 <= i < r ==> Answer(answers, i) != Revoked
  {
    FirstRevokedFrom(items, answers, 0)
  }

  function FirstRevokedFrom(items: seq<Item>, answers: seq<Outcome>, from: nat): (r: nat)
    requires from <= |items|
    ensures from <= r <= |items|
    ensures r < |items| ==> Answer(answers, r) == Revoked
    ensures forall i :: from <= i < r ==> Answer(answers, i) != Revoked
    decreases |items| - from
  {
    if from == |items| || Answer(answers, from) == Revoked then from
    else FirstRevokedFrom(items, answers, from + 1)
  }

  /** What is left of one item whose upload was tried before any revocation. */
  function Kept(item: Item, outcome: Outcome): seq<Item> {
    if outcome == Retry && item.attempts + 1 < MAX_ATTEMPTS
    then [item.(attempts := item.attempts + 1)] else []
  }

  /** What is kept of the first `n` items, in order, when none of them was revoked. */
  function KeptOf(items: seq<Item>, answers: seq<Outcome>, n: nat): seq<Item>
    requires n <= |items|
  {
    if n == 0 then []
    else KeptOf(items, answers, n - 1) + Kept(items[n - 1], Answer(answers, n - 1))
  }

  /** What is dead-lettered of the first `n` items, in order. */
  function ExhaustedOf(items: seq<Item>, answers: seq<Outcome>, n: nat): seq<DeadItem>
    requires n <= |items|
  {
    if n == 0 then []
    else ExhaustedOf(items, answers, n - 1)
         + if Answer(answers, n - 1) == Retry && items[n - 1].attempts + 1 >= MAX_ATTEMPTS
           then [Exhausted(items[n - 1])] else []
  }

  lemma {:induction false} FlushBeforeRevocation(items: seq<Item>, answers: seq<Outcome>, n: nat)
    requires n <= FirstRevoked(items, answers)
    ensures var t := Delivered(items, answers, n);
      !t.revoked && t.remaining == KeptOf(items, answers, n) && t.exhausted == ExhaustedOf(items, answers, n)
  {
    if n > 0 { FlushBeforeRevocation(items, answers, n - 1); }
  }

  lemma {:induction false} FlushAfterRevocation(items: seq<Item>, answers: seq<Outcome>, n: nat)
    requires FirstRevoked(items, answers) < n <= |items|
    ensures var r := FirstRevoked(items, answers);
      var t := Delivered(items, answers, n);
      t.revoked && t.remaining == KeptOf(items, answers, r) + items[r..n]
        && t.exhausted == ExhaustedOf(items, answers, r)
  {
    var r := FirstRevoked(items, answers);
    if n == r + 1 {
      FlushBeforeRevocation(items, answers, r);
      assert items[r..n] == [items[r]];
    } else {
      FlushAfterRevocation(items, answers, n - 1);
      assert items[r..n] == items[r..n - 1] + [items[n - 1]];
    }
  }

  /**
    A flush delivers exactly the prefix up to the first revocation, keeps the rest
    untouched and in order, and only the delivered prefix decides what is kept or
    dead-lettered of it.
   */
  lemma FlushStopsAtRevocation(items: seq<Item>, answers: seq<Outcome>)
    ensures var r := FirstRevoked(items, answers);
      var t := Flushed(items, answers);
      && t.remaining == KeptOf(items, answers, r) + items[r..]
      && t.exhausted == ExhaustedOf(items, answers, r)
      && t.revoked == (r < |items|)
  {
    var r := FirstRevoked(items, answers);
    if r < |items| {
      FlushAfterRevocation(items, answers, |items|);
    } else {
      FlushBeforeRevocation(items, answers, r);
      assert items[r..] == [];
    }
  }

  /** Answers past the first revocation are never asked for. */
  lemma {:induction false} AnswersAfterRevocationIgnored(items: seq<Item>, answers: seq<Outcome>, other: seq<Outcome>,
                                                         n: nat)
    requires n <= |items|
    requires forall i :: 0 <= i <= FirstRevoked(items, answers) && i < |items| ==>
      Answer(other, i) == Answer(answers, i)
    ensures Delivered(items, other, n) == Delivered(items, answers, n)
  {
    if n > 0 {
      AnswersAfterRevocationIgnored(items, answers, other, n - 1);
      if n - 1 > FirstRevoked(items, answers) { FlushAfterRevocation(items, answers, n - 1); }
    }
  }
}
