/**
  What syncs and pairings achieve when nothing goes wrong: the projection becomes what the
  server answered for the stored credential, and empty when there is no credential or no answer.
 */
module SyncLive {
  import opened Prelude
  import opened OwnedTargets
  import opened SyncProtocol
  import opened SyncQuiet

  lemma Then(s: State, more: seq<Label>, l: Label)
    requires ExecFrom(s, more).Some?
    ensures ExecFrom(s, more + [l]) == Step(ExecFrom(s, more).value, l)
  {
    assert Init(more + [l]) == more;
  }

  /** Task `n` is in this phase of the newest generation; these requests are outstanding, and storage holds this. */
  predicate Stands(u: State, n: nat, p: Phase, requests: seq<Request>, stored: Option<Credential>) {
    n < |u.tasks| && u.tasks[n] == Task(u.gen, p, None) && u.requests == requests && u.stored == stored
  }

  /** The same with a reply to act on, and nothing outstanding. */
  predicate Told(u: State, n: nat, p: Phase, stored: Option<Credential>) {
    && n < |u.tasks| && u.tasks[n].gen == u.gen && u.tasks[n].phase == p && u.requests == [] && u.stored == stored
    && u.tasks[n].mail.Some? && u.tasks[n].mail.value.Read? && u.tasks[n].mail.value.cred == stored
  }

  lemma ReadIsServed(u: State, n: nat, p: Phase, stored: Option<Credential>)
    requires Stands(u, n, p, [GetCredential(n, u.gen)], stored) && !p.Ended?
    ensures Step(u, Serve).Some? && Told(Step(u, Serve).value, n, p, stored) && Step(u, Serve).value.gen == u.gen
  {
  }

  lemma NoCredentialIsChecked(u: State, n: nat)
    requires Told(u, n, SyncRead, None)
    ensures Step(u, Resume(n)).Some? && Step(u, Resume(n)).value.gen == u.gen
    ensures Stands(Step(u, Resume(n)).value, n, SyncCheck(None, None), [GetCredential(n, u.gen)], None)
  {
  }

  lemma CredentialIsFetchedFor(u: State, n: nat, cred: Credential)
    requires Told(u, n, SyncRead, Some(cred))
    ensures Step(u, Resume(n)).Some? && Step(u, Resume(n)).value.gen == u.gen
    ensures Stands(Step(u, Resume(n)).value, n, SyncFetch(cred), [], Some(cred))
  {
  }

  lemma AnswerIsChecked(u: State, n: nat, cred: Credential, result: Option<seq<Target>>)
    requires Stands(u, n, SyncFetch(cred), [], Some(cred))
    ensures Step(u, Fetched(n, result)).Some? && Step(u, Fetched(n, result)).value.gen == u.gen
    ensures Stands(Step(u, Fetched(n, result)).value, n, SyncCheck(Some(cred), result), [GetCredential(n, u.gen)],
                   Some(cred))
  {
  }

  /** The projection and its owner as a sync leaves them that found `stored` and was answered `result`. */
  predicate Refreshed(u: State, stored: Option<Credential>, result: Option<seq<Target>>) {
    && u.stored == stored && u.owner.generation == u.gen
    && match stored
       case None => u.index == map[] && u.owner.account == None
       case Some(cred) =>
         u.owner.account == Some(cred.account)
         && u.index == (match result case None => map[] case Some(targets) => ByVariant(targets))
  }

  lemma CheckInstalls(u: State, n: nat, stored: Option<Credential>, result: Option<seq<Target>>)
    requires Told(u, n, SyncCheck(stored, result), stored)
    ensures Step(u, Resume(n)).Some? && Refreshed(Step(u, Resume(n)).value, stored, result)
  {
  }

  /** From the read a sync begins with to its end. */
  lemma SyncRuns(s: State, done: seq<Label>, n: nat, result: Option<seq<Target>>) returns (more: seq<Label>)
    requires ExecFrom(s, done).Some?
    requires var u := ExecFrom(s, done).value; Stands(u, n, SyncRead, [GetCredential(n, u.gen)], u.stored)
    ensures ExecFrom(s, more).Some? && ExecFrom(s, more).value.gen == ExecFrom(s, done).value.gen
    ensures Refreshed(ExecFrom(s, more).value, ExecFrom(s, done).value.stored, result)
  {
    var u := ExecFrom(s, done).value;
    var stored := u.stored;
    Then(s, done, Serve);
    ReadIsServed(u, n, SyncRead, stored);
    more := done + [Serve];
    Then(s, more, Resume(n));
    if stored.None? {
      NoCredentialIsChecked(ExecFrom(s, more).value, n);
      more := more + [Resume(n)];
      more := SyncEnds(s, more, n, None, None);
    } else {
      CredentialIsFetchedFor(ExecFrom(s, more).value, n, stored.value);
      more := more + [Resume(n)];
      Then(s, more, Fetched(n, result));
      AnswerIsChecked(ExecFrom(s, more).value, n, stored.value, result);
      more := more + [Fetched(n, result)];
      more := SyncEnds(s, more, n, stored, result);
    }
  }

  lemma SyncEnds(s: State, done: seq<Label>, n: nat, stored: Option<Credential>, result: Option<seq<Target>>)
      returns (more: seq<Label>)
    requires ExecFrom(s, done).Some?
    requires var u := ExecFrom(s, done).value;
      Stands(u, n, SyncCheck(stored, result), [GetCredential(n, u.gen)], stored)
    ensures ExecFrom(s, more).Some? && ExecFrom(s, more).value.gen == ExecFrom(s, done).value.gen
    ensures Refreshed(ExecFrom(s, more).value, stored, result)
  {
    var u := ExecFrom(s, done).value;
    Then(s, done, Serve);
    ReadIsServed(u, n, SyncCheck(stored, result), stored);
    more := done + [Serve];
    Then(s, more, Resume(n));
    CheckInstalls(ExecFrom(s, more).value, n, stored, result);
    more := more + [Resume(n)];
  }

  // ---- main results ------------------------------------------------------------------------------

  /**
    From every state with nothing outstanding an undisturbed sync leaves exactly what the server
    answered for the stored credential, and an empty projection when there is no credential or
    the answer is a failure: it fails closed.
   */
  lemma UndisturbedSyncRefreshes(s: State, result: Option<seq<Target>>) returns (more: seq<Label>)
    requires s.requests == []
    ensures ExecFrom(s, more).Some? && ExecFrom(s, more).value.gen == s.gen + 1
    ensures Refreshed(ExecFrom(s, more).value, s.stored, result)
  {
    Then(s, [], StartSync);
    more := SyncRuns(s, [StartSync], |s.tasks|, result);
  }

  /** A pairing in this phase, with or without the reply it awaits; these requests are outstanding. */
  predicate Pairs(u: State, n: nat, p: Phase, mail: Option<Reply>, requests: seq<Request>, gen: nat,
                  stored: Option<Credential>) {
    && n < |u.tasks| && u.tasks[n].phase == p && u.tasks[n].mail == mail
    && u.requests == requests && u.gen == gen && u.stored == stored
  }

  lemma ClaimWrites(u: State, n: nat, gen: nat, stored: Option<Credential>, cred: Credential)
    requires Pairs(u, n, PairClaim, None, [], gen, stored)
    ensures Step(u, Claimed(n, cred)).Some?
    ensures Pairs(Step(u, Claimed(n, cred)).value, n, PairWrite, None, [SetCredential(n, cred)], gen, stored)
  {
  }

  lemma WriteIsServed(u: State, n: nat, gen: nat, stored: Option<Credential>, cred: Credential)
    requires Pairs(u, n, PairWrite, None, [SetCredential(n, cred)], gen, stored)
    ensures Step(u, Serve).Some?
    ensures Pairs(Step(u, Serve).value, n, PairWrite, Some(Done), [], gen, Some(cred))
  {
  }

  lemma WriteBumps(u: State, n: nat, gen: nat, stored: Option<Credential>)
    requires Pairs(u, n, PairWrite, Some(Done), [], gen, stored)
    ensures Step(u, Resume(n)).Some?
    ensures Pairs(Step(u, Resume(n)).value, n, PairReady, None, [SetCapability(n)], gen + 1, stored)
  {
  }

  lemma ReadyIsServed(u: State, n: nat, gen: nat, stored: Option<Credential>)
    requires Pairs(u, n, PairReady, None, [SetCapability(n)], gen, stored)
    ensures Step(u, Serve).Some? && Pairs(Step(u, Serve).value, n, PairReady, Some(Done), [], gen, stored)
  {
  }

  lemma ReadySyncs(u: State, n: nat, gen: nat, stored: Option<Credential>)
    requires Pairs(u, n, PairReady, Some(Done), [], gen, stored)
    ensures Step(u, Resume(n)).Some?
    ensures var v := Step(u, Resume(n)).value; Stands(v, n, SyncRead, [GetCredential(n, v.gen)], stored)
  {
  }

  lemma PairingWrites(s: State, cred: Credential) returns (more: seq<Label>)
    requires s.requests == []
    ensures ExecFrom(s, more).Some?
    ensures Pairs(ExecFrom(s, more).value, |s.tasks|, PairReady, None, [SetCapability(|s.tasks|)], s.gen + 1,
                  Some(cred))
  {
    var n := |s.tasks|;
    Then(s, [], StartPair);
    more := [StartPair];
    assert Pairs(ExecFrom(s, more).value, n, PairClaim, None, [], s.gen, s.stored);
    Then(s, more, Claimed(n, cred));
    ClaimWrites(ExecFrom(s, more).value, n, s.gen, s.stored, cred);
    more := more + [Claimed(n, cred)];
    Then(s, more, Serve);
    WriteIsServed(ExecFrom(s, more).value, n, s.gen, s.stored, cred);
    more := more + [Serve];
    Then(s, more, Resume(n));
    WriteBumps(ExecFrom(s, more).value, n, s.gen, Some(cred));
    more := more + [Resume(n)];
  }

  lemma ReadyPairingSyncs(s: State, done: seq<Label>, n: nat, gen: nat, stored: Option<Credential>)
      returns (more: seq<Label>)
    requires ExecFrom(s, done).Some?
    requires Pairs(ExecFrom(s, done).value, n, PairReady, None, [SetCapability(n)], gen, stored)
    ensures ExecFrom(s, more).Some?
    ensures var v := ExecFrom(s, more).value; Stands(v, n, SyncRead, [GetCredential(n, v.gen)], stored)
  {
    Then(s, done, Serve);
    ReadyIsServed(ExecFrom(s, done).value, n, gen, stored);
    more := done + [Serve];
    Then(s, more, Resume(n));
    ReadySyncs(ExecFrom(s, more).value, n, gen, stored);
    more := more + [Resume(n)];
  }

  /**
    From every state with nothing outstanding an undisturbed pairing stores the new credential and
    ends with exactly what the server answered for it, owned by its account, whatever was
    stored and owned before.
   */
  lemma UndisturbedPairingInstalls(s: State, cred: Credential, targets: seq<Target>) returns (more: seq<Label>)
    requires s.requests == []
    ensures ExecFrom(s, more).Some? && ExecFrom(s, more).value.stored == Some(cred)
    ensures ExecFrom(s, more).value.index == ByVariant(targets)
    ensures ExecFrom(s, more).value.owner.account == Some(cred.account)
  {
    more := PairingWrites(s, cred);
    more := ReadyPairingSyncs(s, more, |s.tasks|, s.gen + 1, Some(cred));
    more := SyncRuns(s, more, |s.tasks|, Some(targets));
  }
}
