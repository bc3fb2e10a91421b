/**
  From a revoke until the next pairing issues its credential write, nothing is owned:
  exactly while the outstanding requests leave storage empty.
 */
module SyncQuiet {
  import opened Prelude
  import opened OwnedTargets
  import opened SyncProtocol

  /** The credential storage will hold once its first `n` outstanding requests are served. */
  function WillHold(stored: Option<Credential>, requests: seq<Request>, n: nat): Option<Credential>
    requires n <= |requests|
    decreases n
  {
    if n == 0 then stored else WillHold(Written(stored, requests[0]), requests[1..], n - 1)
  }

  lemma {:induction false} WillHoldLast(stored: Option<Credential>, requests: seq<Request>, r: Request)
    ensures WillHold(stored, requests + [r], |requests| + 1) == Written(WillHold(stored, requests, |requests|), r)
    decreases |requests|
  {
    assert (requests + [r])[1..] == if requests == [] then [] else requests[1..] + [r];
    if requests != [] {
      WillHoldLast(Written(stored, requests[0]), requests[1..], r);
    }
  }

  /** If a credential is sure to be removed, it is removed whatever was stored before. */
  lemma {:induction false} RemovalIsSure(stored: Option<Credential>, other: Option<Credential>,
                                         requests: seq<Request>, n: nat)
    requires n <= |requests| && stored.Some? && WillHold(stored, requests, n) == None
    ensures WillHold(other, requests, n) == None
    decreases n
  {
    if n > 0 {
      var r := requests[0];
      if Written(stored, r) != Written(other, r) {
        RemovalIsSure(Written(stored, r), Written(other, r), requests[1..], n - 1);
      }
    }
  }

  lemma {:induction false} OrphansHold(stored: Option<Credential>, requests: seq<Request>)
    ensures WillHold(stored, Orphaned(requests), |Orphaned(requests)|) == WillHold(stored, requests, |requests|)
    decreases |requests|
  {
    if requests != [] {
      OrphansHold(Written(stored, requests[0]), requests[1..]);
      var rest := Orphaned(requests[1..]);
      if requests[0].GetCredential? {
        assert Orphaned(requests) == rest;
      } else {
        assert Orphaned(requests)[1..] == rest;
      }
    }
  }

  // ---- what holds while a revoke stands ------------------------------------------------

  predicate NoWrites(requests: seq<Request>) {
    forall p :: 0 <= p < |requests| ==> !WritesCredential(requests[p])
  }

  /** No credential write was issued after a read of the current sync. */
  predicate ReadsLast(requests: seq<Request>, gen: nat) {
    forall p, q :: 0 <= p < q < |requests| && requests[p].GetCredential? && requests[p].gen == gen ==>
      !WritesCredential(requests[q])
  }

  predicate HasRead(t: Task) {
    t.phase.SyncFetch? || t.phase.SyncCheck? || (t.mail.Some? && t.mail.value.Read?)
  }

  /** What the sync has been told of the credential is what storage holds. */
  predicate Knows(t: Task, stored: Option<Credential>) {
    && (t.phase.SyncFetch? ==> stored == Some(t.phase.cred))
    && (t.phase.SyncCheck? ==> stored == t.phase.began)
    && (t.mail.Some? && t.mail.value.Read? ==> stored == t.mail.value.cred)
  }

  /** The current sync, once it has read, knows what storage will go on holding. */
  predicate QuietTask(t: Task, gen: nat, stored: Option<Credential>, requests: seq<Request>) {
    InSync(t.phase) && t.gen == gen && HasRead(t) ==> Knows(t, stored) && NoWrites(requests)
  }

  predicate QuietTasks(tasks: seq<Task>, gen: nat, stored: Option<Credential>, requests: seq<Request>) {
    forall i :: 0 <= i < |tasks| ==> QuietTask(tasks[i], gen, stored, requests)
  }

  /** A projection that owns something rests on a credential that stays. */
  predicate QuietIndex(index: map<int, Target>, stored: Option<Credential>, requests: seq<Request>) {
    index != map[] ==> stored.Some? && NoWrites(requests)
  }

  predicate PastReads(requests: seq<Request>, gen: nat) {
    forall p :: 0 <= p < |requests| && requests[p].GetCredential? ==> requests[p].gen <= gen
  }

  predicate PastTasks(tasks: seq<Task>, gen: nat) {
    forall i :: 0 <= i < |tasks| ==> tasks[i].gen <= gen || !InSync(tasks[i].phase)
  }

  predicate Quiet(s: State) {
    && PastReads(s.requests, s.gen) && PastTasks(s.tasks, s.gen)
    && (s.quiet ==>
          && ReadsLast(s.requests, s.gen) && QuietTasks(s.tasks, s.gen, s.stored, s.requests)
          && QuietIndex(s.index, s.stored, s.requests))
  }

  lemma {:induction false} OrphansAreNoReads(requests: seq<Request>)
    ensures forall p :: 0 <= p < |Orphaned(requests)| ==> !Orphaned(requests)[p].GetCredential?
  {
    if requests != [] { OrphansAreNoReads(requests[1..]); }
  }

  lemma StartKeepsQuiet(s: State, l: Label)
    requires Quiet(s) && (l.StartSync? || l.StartPair? || l.StartRevoke?)
    ensures Quiet(Step(s, l).value)
  {
  }

  lemma ServeKeepsQuiet(s: State)
    requires Quiet(s) && s.requests != []
    ensures Quiet(Served(s))
  {
    var s' := Served(s);
    if s.quiet {
      forall i | 0 <= i < |s'.tasks|
        ensures QuietTask(s'.tasks[i], s'.gen, s'.stored, s'.requests)
      {
        assert QuietTask(s.tasks[i], s.gen, s.stored, s.requests);
      }
    }
  }

  lemma FailKeepsQuiet(s: State)
    requires Quiet(s) && s.requests != []
    ensures Quiet(Failed(s))
  {
    var s' := Failed(s);
    if s.quiet {
      forall i | 0 <= i < |s'.tasks|
        ensures QuietTask(s'.tasks[i], s'.gen, s'.stored, s'.requests)
      {
        assert QuietTask(s.tasks[i], s.gen, s.stored, s.requests);
      }
    }
  }

  lemma SyncKeepsQuiet(s: State, i: nat)
    requires Quiet(s) && i < |s.tasks| && InSync(s.tasks[i].phase) && Resumed(s, i).Some?
    ensures Quiet(Resumed(s, i).value)
  {
    var s' := Resumed(s, i).value;
    if s.quiet {
      assert QuietTask(s.tasks[i], s.gen, s.stored, s.requests);
      forall j | 0 <= j < |s'.tasks|
        ensures QuietTask(s'.tasks[j], s'.gen, s'.stored, s'.requests)
      {
        assert QuietTask(s.tasks[j], s.gen, s.stored, s.requests);
      }
    }
  }

  /** Pairings and revokes on their way issue no credential write when they resume. */
  lemma OthersKeepQuiet(s: State, i: nat)
    requires Quiet(s) && i < |s.tasks| && !InSync(s.tasks[i].phase) && Resumed(s, i).Some?
    ensures Quiet(Resumed(s, i).value)
  {
    var s' := Resumed(s, i).value;
    if s.quiet {
      forall j | 0 <= j < |s'.tasks|
        ensures QuietTask(s'.tasks[j], s'.gen, s'.stored, s'.requests)
      {
        assert QuietTask(s.tasks[j], s.gen, s.stored, s.requests);
      }
    }
  }

  lemma NetworkKeepsQuiet(s: State, l: Label)
    requires Quiet(s) && (l.Claimed? || l.ClaimFailed? || l.Fetched?) && Step(s, l).Some?
    ensures Quiet(Step(s, l).value)
  {
    var s' := Step(s, l).value;
    if s'.quiet {
      forall j | 0 <= j < |s'.tasks|
        ensures QuietTask(s'.tasks[j], s'.gen, s'.stored, s'.requests)
      {
        assert QuietTask(s.tasks[j], s.gen, s.stored, s.requests);
      }
    }
  }

  lemma RespawnKeepsQuiet(s: State)
    requires Quiet(s)
    ensures Quiet(Step(s, Respawn).value)
  {
    OrphansAreNoReads(s.requests);
  }

  lemma StepKeepsQuiet(s: State, l: Label)
    requires Quiet(s) && Step(s, l).Some?
    ensures Quiet(Step(s, l).value)
  {
    match l
    case Serve => ServeKeepsQuiet(s);
    case ServeFails => FailKeepsQuiet(s);
    case Respawn => RespawnKeepsQuiet(s);
    case Resume(i) => if InSync(s.tasks[i].phase) { SyncKeepsQuiet(s, i); } else { OthersKeepQuiet(s, i); }
    case StartSync => StartKeepsQuiet(s, l);
    case StartPair => StartKeepsQuiet(s, l);
    case StartRevoke => StartKeepsQuiet(s, l);
    case _ => NetworkKeepsQuiet(s, l);
  }

  lemma {:induction false} ExecKeepsQuiet(stored: Option<Credential>, run: seq<Label>)
    requires Exec(stored, run).Some?
    ensures Quiet(Exec(stored, run).value)
  {
    if run != [] {
      ExecKeepsQuiet(stored, Init(run));
      StepKeepsQuiet(Exec(stored, Init(run)).value, Last(run));
    }
  }

  // ---- storage on its way to empty stays on its way --------------------------------------

  /** The credential storage will hold once every outstanding request is served. */
  function Ahead(s: State): Option<Credential> {
    WillHold(s.stored, s.requests, |s.requests|)
  }

  /** A step that issues no pairing write and in which storage refuses no removal. */
  predicate CalmStep(s: State, l: Label) {
    !l.Claimed? && !(l.ServeFails? && s.requests != [] && s.requests[0].RemoveCredential?)
  }

  lemma IssueHolds(s: State, r: Request)
    requires !r.SetCredential? && Ahead(s) == None
    ensures WillHold(s.stored, s.requests + [r], |s.requests| + 1) == None
  {
    WillHoldLast(s.stored, s.requests, r);
  }

  lemma FailHolds(s: State)
    requires s.requests != [] && !s.requests[0].RemoveCredential? && Ahead(s) == None
    ensures Ahead(Failed(s)) == None
  {
    var written := Written(s.stored, s.requests[0]);
    if written != s.stored { RemovalIsSure(written, s.stored, s.requests[1..], |s.requests| - 1); }
  }

  lemma ResumeHolds(s: State, i: nat)
    requires i < |s.tasks| && Resumed(s, i).Some? && Ahead(s) == None
    ensures Ahead(Resumed(s, i).value) == None
  {
    var s' := Resumed(s, i).value;
    if s'.requests != s.requests {
      IssueHolds(s, Last(s'.requests));
    }
  }

  lemma CalmHolds(s: State, l: Label)
    requires Step(s, l).Some? && CalmStep(s, l) && Ahead(s) == None
    ensures Ahead(Step(s, l).value) == None
  {
    match l
    case Serve =>
    case ServeFails => FailHolds(s);
    case Respawn => OrphansHold(s.stored, s.requests);
    case Resume(i) => ResumeHolds(s, i);
    case StartRevoke => WillHoldLast(s.stored, s.requests, RemoveCredential(|s.tasks|));
    case StartSync => IssueHolds(s, GetCredential(|s.tasks|, s.gen + 1));
    case Fetched(i, _) => IssueHolds(s, GetCredential(i, s.tasks[i].gen));
    case _ =>
  }

  /** While the outstanding requests leave storage empty, nothing is owned. */
  lemma EmptyAheadOwnsNothing(s: State)
    requires Quiet(s) && s.quiet && Ahead(s) == None
    ensures s.index == map[]
  {
    if s.index != map[] { NoWritesHolds(s.stored, s.requests, |s.requests|); }
  }

  lemma {:induction false} NoWritesHolds(stored: Option<Credential>, requests: seq<Request>, n: nat)
    requires n <= |requests| && NoWrites(requests)
    ensures WillHold(stored, requests, n) == stored
    decreases n
  {
    if n > 0 {
      assert !WritesCredential(requests[0]);
      NoWritesHolds(stored, requests[1..], n - 1);
    }
  }

  // ---- continuations -----------------------------------------------------------------------

  function ExecFrom(s: State, more: seq<Label>): Option<State> {
    if more == [] then Some(s)
    else match ExecFrom(s, Init(more))
      case None => None
      case Some(t) => Step(t, Last(more))
  }

  /** A continuation without pairing writes and without refused removals. */
  predicate Calm(s: State, more: seq<Label>) {
    more == [] ||
    (Calm(s, Init(more)) && ExecFrom(s, Init(more)).Some? && CalmStep(ExecFrom(s, Init(more)).value, Last(more)))
  }

  ghost predicate StaysEmpty(s: State) {
    forall more :: Calm(s, more) && ExecFrom(s, more).Some? ==> ExecFrom(s, more).value.index == map[]
  }

  lemma {:induction false} CalmKeepsEmpty(s: State, more: seq<Label>)
    requires Quiet(s) && s.quiet && Ahead(s) == None && Calm(s, more) && ExecFrom(s, more).Some?
    ensures var t := ExecFrom(s, more).value; Quiet(t) && t.quiet && Ahead(t) == None && t.index == map[]
  {
    if more == [] {
      EmptyAheadOwnsNothing(s);
    } else {
      CalmKeepsEmpty(s, Init(more));
      var t := ExecFrom(s, Init(more)).value;
      StepKeepsQuiet(t, Last(more));
      CalmHolds(t, Last(more));
      EmptyAheadOwnsNothing(ExecFrom(s, more).value);
    }
  }

  lemma CalmThen(s: State, more: seq<Label>, l: Label)
    requires Calm(s, more) && ExecFrom(s, more).Some? && CalmStep(ExecFrom(s, more).value, l)
    ensures Calm(s, more + [l]) && ExecFrom(s, more + [l]) == Step(ExecFrom(s, more).value, l)
  {
    assert Init(more + [l]) == more;
  }

  lemma ServeHolds(s: State)
    requires s.requests != []
    ensures Step(s, Serve) == Some(Served(s)) && Ahead(Served(s)) == Ahead(s)
    ensures |Served(s).requests| == |s.requests| - 1
  {
  }

  /** Serving all that is outstanding. */
  lemma {:induction false} Drained(s: State, done: seq<Label>) returns (more: seq<Label>)
    requires Calm(s, done) && ExecFrom(s, done).Some?
    ensures Calm(s, more) && ExecFrom(s, more).Some?
    ensures var t := ExecFrom(s, more).value; t.requests == [] && t.stored == Ahead(ExecFrom(s, done).value)
    decreases |ExecFrom(s, done).value.requests|
  {
    var t := ExecFrom(s, done).value;
    if t.requests == [] {
      more := done;
    } else {
      ServeHolds(t);
      CalmThen(s, done, Serve);
      more := Drained(s, done + [Serve]);
    }
  }

  /** One sync from beginning to end, with nothing else outstanding: what it fetched is owned. */
  lemma SyncInstalls(s: State, done: seq<Label>, cred: Credential, t: Target) returns (more: seq<Label>)
    requires Calm(s, done) && ExecFrom(s, done).Some?
    requires ExecFrom(s, done).value.requests == [] && ExecFrom(s, done).value.stored == Some(cred)
    ensures Calm(s, more) && ExecFrom(s, more).Some?
    ensures Resolved(ExecFrom(s, more).value.index, Product(Some(t.variant))) == Some(t)
  {
    var n := |ExecFrom(s, done).value.tasks|;
    more := SyncFetches(s, done, cred);
    more := SyncChecks(s, more, n, cred, t);
    CalmThen(s, more, Resume(n));
    assert Init([t]) == [] && ByVariant([t]) == map[t.variant := t];
    more := more + [Resume(n)];
  }

  lemma SyncFetches(s: State, done: seq<Label>, cred: Credential) returns (more: seq<Label>)
    requires Calm(s, done) && ExecFrom(s, done).Some?
    requires ExecFrom(s, done).value.requests == [] && ExecFrom(s, done).value.stored == Some(cred)
    ensures Calm(s, more) && ExecFrom(s, more).Some?
    ensures var n, t := |ExecFrom(s, done).value.tasks|, ExecFrom(s, more).value;
      && |t.tasks| == n + 1 && t.tasks[n] == Task(t.gen, SyncFetch(cred), None)
      && t.requests == [] && t.stored == Some(cred)
  {
    var n := |ExecFrom(s, done).value.tasks|;
    CalmThen(s, done, StartSync);
    more := done + [StartSync];
    CalmThen(s, more, Serve);
    more := more + [Serve];
    CalmThen(s, more, Resume(n));
    more := more + [Resume(n)];
  }

  /** The response arrives and storage serves the guard's read. */
  lemma CheckIsRead(u: State, n: nat, cred: Credential, t: Target)
    requires n < |u.tasks| && u.tasks[n] == Task(u.gen, SyncFetch(cred), None) && u.requests == []
      && u.stored == Some(cred)
    ensures Step(u, Fetched(n, Some([t]))).Some?
    ensures var v := Step(u, Fetched(n, Some([t]))).value;
      && Step(v, Serve).Some?
      && var w := Step(v, Serve).value;
      && n < |w.tasks| && w.tasks[n].gen == w.gen && w.tasks[n].phase == SyncCheck(Some(cred), Some([t]))
      && w.tasks[n].mail.Some? && w.tasks[n].mail.value.Read? && w.tasks[n].mail.value.cred == Some(cred)
  {
    var v := Step(u, Fetched(n, Some([t]))).value;
    assert v.requests == [GetCredential(n, u.gen)];
  }

  lemma SyncChecks(s: State, done: seq<Label>, n: nat, cred: Credential, t: Target) returns (more: seq<Label>)
    requires Calm(s, done) && ExecFrom(s, done).Some?
    requires var u := ExecFrom(s, done).value;
      && n < |u.tasks| && u.tasks[n] == Task(u.gen, SyncFetch(cred), None) && u.requests == [] && u.stored == Some(cred)
    ensures Calm(s, more) && ExecFrom(s, more).Some?
    ensures var u := ExecFrom(s, more).value;
      && n < |u.tasks| && u.tasks[n].gen == u.gen && u.tasks[n].phase == SyncCheck(Some(cred), Some([t]))
      && u.tasks[n].mail.Some? && u.tasks[n].mail.value.Read? && u.tasks[n].mail.value.cred == Some(cred)
  {
    CheckIsRead(ExecFrom(s, done).value, n, cred, t);
    CalmThen(s, done, Fetched(n, Some([t])));
    more := done + [Fetched(n, Some([t]))];
    CalmThen(s, more, Serve);
    more := more + [Serve];
  }

  /** A state in which a credential will be left has a continuation after which its targets resolve. */
  lemma LeftCredentialReopens(s: State, t: Target) returns (more: seq<Label>)
    requires Ahead(s).Some?
    ensures Calm(s, more) && ExecFrom(s, more).Some?
    ensures Resolved(ExecFrom(s, more).value.index, Product(Some(t.variant))) == Some(t)
  {
    more := Drained(s, []);
    more := SyncInstalls(s, more, Ahead(s).value, t);
  }

  // ---- main results ------------------------------------------------------------------------

  /** Step `k` is a revoke, and no pairing has issued a credential write since. */
  predicate RevokedAt(run: seq<Label>, k: nat) {
    k < |run| && run[k].StartRevoke? && forall j :: k < j < |run| ==> !run[j].Claimed?
  }

  lemma QuietStays(s: State, l: Label)
    requires Step(s, l).Some? && (l.StartRevoke? || (s.quiet && !l.Claimed?))
    ensures Step(s, l).value.quiet
  {
  }

  lemma {:induction false} RevokedIsQuiet(stored: Option<Credential>, run: seq<Label>, k: nat)
    requires Exec(stored, run).Some? && RevokedAt(run, k)
    ensures Exec(stored, run).value.quiet
  {
    var before := Init(run);
    assert forall j :: 0 <= j < |before| ==> before[j] == run[j];
    if k < |before| { RevokedIsQuiet(stored, before, k); }
    QuietStays(Exec(stored, before).value, Last(run));
  }

  /**
    After a revoke and without a pairing's write since, nothing is owned now and in every
    calm continuation exactly when the outstanding requests leave storage empty.
   */
  lemma QuietIffStorageEmpties(stored: Option<Credential>, run: seq<Label>, k: nat)
    requires Exec(stored, run).Some? && RevokedAt(run, k)
    ensures Ahead(Exec(stored, run).value) == None <==> StaysEmpty(Exec(stored, run).value)
  {
    var s := Exec(stored, run).value;
    ExecKeepsQuiet(stored, run);
    RevokedIsQuiet(stored, run, k);
    if Ahead(s) == None {
      forall more | Calm(s, more) && ExecFrom(s, more).Some?
        ensures ExecFrom(s, more).value.index == map[]
      {
        CalmKeepsEmpty(s, more);
      }
    } else {
      var more := LeftCredentialReopens(s, Target("", "", 0, ""));
      assert ExecFrom(s, more).value.index != map[];
    }
  }

  /** Step `j` of the run is a credential removal that storage refused. */
  predicate RemovalRefused(stored: Option<Credential>, run: seq<Label>, j: nat)
    requires j < |run|
  {
    var before := Exec(stored, run[..j]);
    run[j].ServeFails? && before.Some? && before.value.requests != [] && before.value.requests[0].RemoveCredential?
  }

  /** Step `k` is a revoke; no pairing has issued a credential write since, and no removal was refused. */
  predicate RevokedSince(stored: Option<Credential>, run: seq<Label>, k: nat) {
    RevokedAt(run, k) && forall j :: k < j < |run| ==> !RemovalRefused(stored, run, j)
  }

  lemma RefusedBefore(stored: Option<Credential>, run: seq<Label>, j: nat)
    requires j < |run| - 1
    ensures RemovalRefused(stored, Init(run), j) == RemovalRefused(stored, run, j)
  {
    assert Init(run)[..j] == run[..j];
  }

  lemma RevokedBefore(stored: Option<Credential>, run: seq<Label>, k: nat)
    requires k < |run| - 1 && RevokedSince(stored, run, k)
    ensures RevokedSince(stored, Init(run), k)
  {
    forall j | k < j < |run| - 1
      ensures !Init(run)[j].Claimed? && !RemovalRefused(stored, Init(run), j)
    {
      RefusedBefore(stored, run, j);
    }
  }

  lemma LastStepIsCalm(stored: Option<Credential>, run: seq<Label>, k: nat)
    requires k < |run| - 1 && RevokedSince(stored, run, k) && Exec(stored, Init(run)).Some?
    ensures CalmStep(Exec(stored, Init(run)).value, Last(run))
  {
    assert !RemovalRefused(stored, run, |run| - 1);
    assert run[..|run| - 1] == Init(run);
  }

  lemma RevokeEmpties(s: State)
    ensures Ahead(Step(s, StartRevoke).value) == None
  {
    WillHoldLast(s.stored, s.requests, RemoveCredential(|s.tasks|));
  }

  /** A run in which no removal was refused since the revoke is one that leaves storage empty. */
  lemma {:induction false} UnrefusedEmpties(stored: Option<Credential>, run: seq<Label>, k: nat)
    requires Exec(stored, run).Some? && RevokedSince(stored, run, k)
    ensures Ahead(Exec(stored, run).value) == None
  {
    var before := Exec(stored, Init(run)).value;
    if k < |run| - 1 {
      RevokedBefore(stored, run, k);
      UnrefusedEmpties(stored, Init(run), k);
      LastStepIsCalm(stored, run, k);
      CalmHolds(before, Last(run));
    } else {
      RevokeEmpties(before);
    }
  }

  /**
    In every reachable state between a revoke and the next pairing's write that leaves storage empty,
    nothing resolves.
   */
  lemma NothingIsOwnedAfterRevoke(stored: Option<Credential>, run: seq<Label>, k: nat, p: Product)
    requires Exec(stored, run).Some? && RevokedAt(run, k) && Ahead(Exec(stored, run).value) == None
    ensures Exec(stored, run).value.index == map[]
    ensures Resolved(Exec(stored, run).value.index, p) == None
  {
    ExecKeepsQuiet(stored, run);
    RevokedIsQuiet(stored, run, k);
    EmptyAheadOwnsNothing(Exec(stored, run).value);
  }

  /** And each of them does, unless a removal was refused since the revoke. */
  lemma NothingIsOwnedUnlessRefused(stored: Option<Credential>, run: seq<Label>, k: nat, p: Product)
    requires Exec(stored, run).Some? && RevokedSince(stored, run, k)
    ensures Ahead(Exec(stored, run).value) == None
    ensures Resolved(Exec(stored, run).value.index, p) == None
  {
    UnrefusedEmpties(stored, run, k);
    NothingIsOwnedAfterRevoke(stored, run, k, p);
  }

  /** A second revoke makes a refused removal harmless: nothing stays owned although a removal was refused. */
  lemma SecondRevokeCovers(stored: Option<Credential>)
    ensures var run := [StartRevoke, StartRevoke, ServeFails];
      Exec(stored, run).Some? && RemovalRefused(stored, run, 2) && StaysEmpty(Exec(stored, run).value)
  {
    var run := [StartRevoke, StartRevoke, ServeFails];
    assert run[..0] == [];
    assert run[..1] == run[..0] + [StartRevoke];
    ExecThen(stored, run[..0], StartRevoke);
    assert run[..2] == run[..1] + [StartRevoke];
    ExecThen(stored, run[..1], StartRevoke);
    assert run == run[..2] + [ServeFails];
    ExecThen(stored, run[..2], ServeFails);
    QuietIffStorageEmpties(stored, run, 1);
  }

  lemma ExecThen(stored: Option<Credential>, run: seq<Label>, l: Label)
    requires Exec(stored, run).Some?
    ensures Exec(stored, run + [l]) == Step(Exec(stored, run).value, l)
  {
    assert Init(run + [l]) == run;
  }

  /**
    A revoke whose removal storage refuses, with nothing else outstanding: some calm
    continuation resolves the old credential's targets again.
   */
  lemma RefusedRemovalReopens(cred: Credential, t: Target) returns (more: seq<Label>)
    ensures Exec(Some(cred), [StartRevoke, ServeFails]).Some?
    ensures var s := Exec(Some(cred), [StartRevoke, ServeFails]).value;
      && Calm(s, more) && ExecFrom(s, more).Some?
      && Resolved(ExecFrom(s, more).value.index, Product(Some(t.variant))) == Some(t)
  {
    var run := [StartRevoke, ServeFails];
    assert run[..0] == [];
    assert run[..1] == run[..0] + [StartRevoke];
    ExecThen(Some(cred), run[..0], StartRevoke);
    assert run == run[..1] + [ServeFails];
    ExecThen(Some(cred), run[..1], ServeFails);
    more := LeftCredentialReopens(Exec(Some(cred), run).value, t);
  }
}
