/** The upload queue as the extension implements it: a class over a key/value store. */
module UploadQueueImpl {
  import opened Prelude
  import opened QueueOps
  import opened QueueHistory
  import opened QueueDelivery

  /** The durable store; a key that was never written reads as absent. */
  class KeyValueStore {
    var queue: Option<seq<Item>>
    var deadLetter: Option<seq<DeadItem>>

    constructor ()
      ensures queue == None && deadLetter == None
    {
      queue, deadLetter := None, None;
    }
  }

  /** Sheds the oldest items until the rest fit under the cap. */
  method CapToBound(items: seq<Item>) returns (kept: seq<Item>, shed: bool)
    ensures kept == Capped(items)
    ensures shed <==> |items| > QUEUE_CAP
  {
    kept, shed := items, false;
    ghost var cut := 0;
    while |kept| > QUEUE_CAP
      invariant cut <= |items| && kept == items[cut..]
      invariant shed <==> cut > 0
      invariant cut > 0 ==> |items| - cut >= QUEUE_CAP
      decreases |kept|
    {
      kept := kept[1..];
      shed := true;
      cut := cut + 1;
    }
  }

  method IsPending(items: seq<Item>, key: string) returns (found: bool)
    ensures found <==> Pending(items, key)
  {
    for i := 0 to |items|
      invariant forall j :: 0 <= j < i ==> items[j].key != key
    {
      if items[i].key == key { return true; }
    }
    return false;
  }

  lemma {:induction false} FindDeadIsFirst(dead: seq<DeadItem>, key: string, i: nat)
    requires i <= |dead|
    requires forall j :: 0 <= j < i ==> dead[j].key != key
    requires i == |dead| || dead[i].key == key
    ensures FindDead(dead, key) == i
  {
  }

  method FindIndex(dead: seq<DeadItem>, key: string) returns (i: nat)
    ensures i == FindDead(dead, key)
  {
    i := 0;
    while i < |dead| && dead[i].key != key
      invariant i <= |dead|
      invariant forall j :: 0 <= j < i ==> dead[j].key != key
    {
      i := i + 1;
    }
    FindDeadIsFirst(dead, key, i);
  }

  /** Dead letter `i` of the stores is the newest pending item now, and was never tried. */
  predicate BackWithoutAttempts(was: Stores, now: Stores, i: nat) {
    && i < |was.dead| && now.queue != []
    && Last(now.queue) == Item(was.dead[i].key, was.dead[i].capture, 0, was.dead[i].enqueuedAt)
  }

  class UploadQueue {
    const store: KeyValueStore
    const dedupKey: Capture -> string

    constructor (store: KeyValueStore, dedupKey: Capture -> string)
      ensures this.store == store && this.dedupKey == dedupKey
    {
      this.store := store;
      this.dedupKey := dedupKey;
    }

    /** Both stores as the operations see them: an absent one reads as empty. */
    function Contents(): Stores
      reads store
    {
      Stores(if store.queue.Some? then store.queue.value else [],
             if store.deadLetter.Some? then store.deadLetter.value else [])
    }

    method LoadQueue() returns (items: seq<Item>)
      ensures items == Contents().queue
    {
      items := if store.queue.Some? then store.queue.value else [];
    }

    method LoadDeadLetter() returns (items: seq<DeadItem>)
      ensures items == Contents().dead
    {
      items := if store.deadLetter.Some? then store.deadLetter.value else [];
    }

    method SaveQueue(items: seq<Item>)
      modifies store
      ensures Contents() == old(Contents()).(queue := items)
    {
      store.queue := Some(items);
    }

    method SaveDeadLetter(items: seq<DeadItem>)
      modifies store
      ensures Contents() == old(Contents()).(dead := items)
    {
      store.deadLetter := Some(items);
    }

    /** Adds a capture unless one with its key is pending; says when the cap shed another. */
    method Enqueue(capture: Capture, now: string) returns (res: EnqueueResult)
      modifies store
      ensures Contents() == Complete(Op.Enqueue(dedupKey(capture), capture, now), [], old(Contents()))
      ensures OfEnqueue(res) == ResultOf(Op.Enqueue(dedupKey(capture), capture, now), [], old(Contents()))
      ensures Pending(Contents().queue, dedupKey(capture))
      ensures res.enqueued <==> !Pending(old(Contents()).queue, dedupKey(capture))
      ensures res.deduped <==> !res.enqueued
      ensures res.shed <==> res.enqueued && |old(Contents()).queue| >= QUEUE_CAP
      ensures res.enqueued && |old(Contents()).queue| <= QUEUE_CAP ==>
        Contents().queue == (if res.shed then old(Contents()).queue[1..] else old(Contents()).queue)
                            + [Item(dedupKey(capture), capture, 0, now)]
      ensures Contents().dead == old(Contents()).dead
    {
      ghost var before := Contents();
      var items := LoadQueue();
      var key := dedupKey(capture);
      var found := IsPending(items, key);
      if found {
        return EnqueueResult(false, true, false);
      }
      var x := Fresh(key, capture, now);
      items := items + [x];
      if |before.queue| <= QUEUE_CAP { CapShedsOnlyTheOldest(before.queue, x); }
      AddingCapped(before.queue, x);
      var shed;
      items, shed := CapToBound(items);
      SaveQueue(items);
      CommitPoints(before, Plan(Op.Enqueue(key, capture, now), [], before), 1);
      return EnqueueResult(true, false, shed);
    }

    /** Delivers the pending items in order; `answers` are what the uploads will come back with. */
    method Flush(answers: seq<Outcome>) returns (res: FlushResult)
      modifies store
      ensures Contents() == Complete(Op.Flush, answers, old(Contents()))
      ensures OfFlush(res) == ResultOf(Op.Flush, answers, old(Contents()))
      ensures Contents() == Stores(Flushed(old(Contents()).queue, answers).remaining,
                                   old(Contents()).dead + Flushed(old(Contents()).queue, answers).exhausted)
      ensures res.accepted + res.dropped + res.deadLettered + res.remaining == |old(Contents()).queue|
      ensures res.remaining == |Contents().queue|
      ensures |Contents().dead| == |old(Contents()).dead| + res.deadLettered
      ensures res.revoked <==> FirstRevoked(old(Contents()).queue, answers) < |old(Contents()).queue|
      ensures var r := FirstRevoked(old(Contents()).queue, answers);
        && res.accepted == |Answered(answers, Accepted, r)| && res.dropped == |Answered(answers, Drop, r)|
        && res.retried == |Failed(old(Contents()).queue, answers, r)|
        && res.deadLettered == |FailedForGood(old(Contents()).queue, answers, r)|
    {
      ghost var before := Contents();
      var items := LoadQueue();
      var deadLetter := LoadDeadLetter();
      var remaining: seq<Item> := [];
      var accepted, retried, dropped, deadLettered, revoked := 0, 0, 0, 0, false;
      for i := 0 to |items|
        invariant Contents() == before
        invariant var t := Delivered(items, answers, i);
          && t == Tally(remaining, t.exhausted, accepted, retried, dropped, revoked)
          && deadLetter == before.dead + t.exhausted && deadLettered == |t.exhausted|
      {
        var item := items[i];
        if revoked {
          remaining := remaining + [item];
        } else {
          var outcome := Answer(answers, i);
          match outcome
          case Accepted => accepted := accepted + 1;
          case Drop => dropped := dropped + 1;
          case Revoked =>
            revoked := true;
            remaining := remaining + [item];
          case Retry =>
            var attempts := item.attempts + 1;
            if attempts >= MAX_ATTEMPTS {
              deadLetter := deadLetter
                + [DeadItem(item.key, item.capture, attempts, item.enqueuedAt, "max_attempts_exhausted")];
              deadLettered := deadLettered + 1;
            } else {
              remaining := remaining + [item.(attempts := attempts)];
              retried := retried + 1;
            }
        }
      }
      SaveFlushed(remaining, deadLetter, deadLettered, answers);
      FlushConserves(items, answers, |items|);
      FlushStopsAtRevocation(items, answers);
      FlushCountsAnswers(items, answers);
      return FlushResult(accepted, retried, dropped, deadLettered, revoked, |remaining|);
    }

    /** The two writes of a flush: the dead-letter list first, if it grew, then what is left pending. */
    method SaveFlushed(remaining: seq<Item>, deadLetter: seq<DeadItem>, deadLettered: nat, ghost answers: seq<Outcome>)
      requires var t := Flushed(Contents().queue, answers);
        remaining == t.remaining && deadLetter == Contents().dead + t.exhausted && deadLettered == |t.exhausted|
      modifies store
      ensures Contents() == Complete(Op.Flush, answers, old(Contents()))
      ensures Contents() == Stores(remaining, deadLetter)
    {
      CompleteFlush(Contents(), answers);
      if deadLettered > 0 { SaveDeadLetter(deadLetter); }
      SaveQueue(remaining);
    }

    /** The record's capture is pending again, with a fresh budget unless it was pending already. */
    method Requeue(item: DeadItem) returns (shed: bool)
      modifies store
      ensures Contents().queue == if Pending(old(Contents()).queue, item.key) then old(Contents()).queue
                                  else Capped(old(Contents()).queue + [Requeued(item)])
      ensures Contents().dead == old(Contents()).dead
      ensures !Pending(old(Contents()).queue, item.key) ==>
        Contents().queue != [] && Last(Contents().queue) == Item(item.key, item.capture, 0, item.enqueuedAt)
      ensures shed <==> !Pending(old(Contents()).queue, item.key) && |old(Contents()).queue| >= QUEUE_CAP
    {
      var queue := LoadQueue();
      shed := false;
      var found := IsPending(queue, item.key);
      if !found {
        queue := queue + [Item(item.key, item.capture, 0, item.enqueuedAt)];
        queue, shed := CapToBound(queue);
        SaveQueue(queue);
      }
    }

    /** Puts the first dead-lettered record with this key back in the pending queue. */
    method RetryDeadLetter(key: string) returns (res: RetryResult)
      modifies store
      ensures Contents() == Complete(RetryDead(key), [], old(Contents()))
      ensures OfRetry(res) == ResultOf(RetryDead(key), [], old(Contents()))
      ensures res.moved <==> key in DeadKeys(old(Contents()).dead)
      ensures res.moved ==> Pending(Contents().queue, key) && |Contents().dead| == |old(Contents()).dead| - 1
      ensures res.moved && !Pending(old(Contents()).queue, key) ==>
        BackWithoutAttempts(old(Contents()), Contents(), FindDead(old(Contents()).dead, key))
      ensures !res.moved ==> Contents() == old(Contents())
      ensures res.shed <==> res.moved && !Pending(old(Contents()).queue, key) && |old(Contents()).queue| >= QUEUE_CAP
    {
      NothingToRetry(Contents(), key);
      var deadLetter := LoadDeadLetter();
      var idx := FindIndex(deadLetter, key);
      if idx == |deadLetter| {
        return RetryResult(false, false);
      }
      var shed := MoveBack(deadLetter, idx, key);
      return RetryResult(true, shed);
    }

    /** The two writes of a retry: the pending queue first, then the dead-letter list without the record. */
    method MoveBack(deadLetter: seq<DeadItem>, idx: nat, key: string) returns (shed: bool)
      requires deadLetter == Contents().dead && key in DeadKeys(deadLetter)
      requires idx == FindDead(deadLetter, key) && idx < |deadLetter| && deadLetter[idx].key == key
      modifies store
      ensures Contents() == Complete(RetryDead(key), [], old(Contents()))
      ensures Pending(Contents().queue, key) && |Contents().dead| == |old(Contents()).dead| - 1
      ensures !Pending(old(Contents()).queue, key) ==> BackWithoutAttempts(old(Contents()), Contents(), idx)
      ensures shed <==> !Pending(old(Contents()).queue, key) && |old(Contents()).queue| >= QUEUE_CAP
    {
      CompleteRetry(Contents(), key);
      ghost var end := Complete(RetryDead(key), [], Contents());
      shed := Requeue(deadLetter[idx]);
      SaveDeadLetter(deadLetter[..idx] + deadLetter[idx + 1..]);
      assert Contents().queue == end.queue && Contents().dead == end.dead;
    }

    /** Removes the first dead-lettered record with this key, on the operator's word. */
    method DiscardDeadLetter(key: string) returns (removed: bool)
      modifies store
      ensures Contents() == Complete(DiscardDead(key), [], old(Contents()))
      ensures OfDiscard(removed) == ResultOf(DiscardDead(key), [], old(Contents()))
      ensures removed <==> key in DeadKeys(old(Contents()).dead)
      ensures Contents().queue == old(Contents()).queue
      ensures removed ==> Contents().dead == Without(old(Contents()).dead, FindDead(old(Contents()).dead, key))
      ensures !removed ==> Contents() == old(Contents())
    {
      ghost var before := Contents();
      var deadLetter := LoadDeadLetter();
      var idx := FindIndex(deadLetter, key);
      NothingToRetry(before, key);
      CommitPoints(before, Plan(DiscardDead(key), [], before), 1);
      if idx == |deadLetter| {
        return false;
      }
      SaveDeadLetter(deadLetter[..idx] + deadLetter[idx + 1..]);
      return true;
    }
  }
}
