/**
  What the projection has to do with the credential in storage: identity quarantine. A result
  is installed under the stored credential's fingerprint unless a pairing's write has been
  served and has not been acted on yet, and it stays so until a pairing's write is served.
 */
module SyncStored {
  import opened Prelude
  import opened OwnedTargets
  import opened SyncProtocol
  import opened SyncQuiet

  // ---- requests and the handlers that await them ---------------------------------------------

  predicate Awaits(p: Phase, r: Request) {
    match r
    case GetCredential(_, _) => p.SyncRead? || p.SyncCheck?
    case SetCredential(_, _) => p.PairWrite?
    case RemoveCredential(_) => p.RevokeRemove?
    case SetCapability(_) => p.PairReady? || p.RevokeMark?
  }

  /** The handler of an outstanding request still waits for it, unless it has ended. */
  predicate Owned(tasks: seq<Task>, r: Request) {
    && r.task < |tasks|
    && (tasks[r.task].phase.Ended? || (tasks[r.task].mail.None? && Awaits(tasks[r.task].phase, r)))
  }

  predicate AllOwned(tasks: seq<Task>, requests: seq<Request>) {
    forall p :: 0 <= p < |requests| ==> Owned(tasks, requests[p])
  }

  predicate OneEach(requests: seq<Request>) {
    forall p, q :: 0 <= p < q < |requests| ==> requests[p].task != requests[q].task
  }

  /** A handler that waits for the network has no storage reply. */
  predicate Idle(tasks: seq<Task>) {
    forall i :: 0 <= i < |tasks| && (tasks[i].phase.PairClaim? || tasks[i].phase.SyncFetch?) ==> tasks[i].mail.None?
  }

  // ---- writes since a read ----------------------------------------------------------------------

  /** No removal, and no write but that of a pairing that awaits it. */
  predicate OfPairing(tasks: seq<Task>, r: Request) {
    !r.RemoveCredential? && (r.SetCredential? ==> r.task < |tasks| && tasks[r.task].phase.PairWrite?)
  }

  predicate AllOfPairings(tasks: seq<Task>, requests: seq<Request>) {
    forall p :: 0 <= p < |requests| ==> OfPairing(tasks, requests[p])
  }

  /** Whatever was issued after a read of the current sync is no removal. */
  predicate ReadsThenPairings(tasks: seq<Task>, requests: seq<Request>, gen: nat) {
    forall p, q :: 0 <= p < q < |requests| && requests[p].GetCredential? && requests[p].gen == gen ==>
      OfPairing(tasks, requests[q])
  }

  predicate Waits(t: Task) {
    t.phase.PairWrite? && t.mail.Some?
  }

  /** The write of this pairing has been served, and it has not bumped the generation yet. */
  predicate WaitsAt(tasks: seq<Task>, j: nat) {
    j < |tasks| && Waits(tasks[j])
  }

  /** Some pairing waits between its write and its bump. */
  predicate PairingWaits(tasks: seq<Task>) {
    exists j :: 0 <= j < |tasks| && WaitsAt(tasks, j)
  }

  /** Storage holds what was seen when `n` writes had been served, or what the last write since has left. */
  predicate Held(seen: Option<Credential>, n: nat, writes: seq<Write>, stored: Option<Credential>) {
    && n <= |writes| && stored == (if |writes| == n then seen else Last(writes).left)
    && forall k :: n <= k < |writes| ==> writes[k].left.Some?
  }

  /** Since the read that saw `seen`, pairings alone have written, and pairings alone will. */
  predicate Since(s: State, seen: Option<Credential>, n: nat) {
    Held(seen, n, s.writes, s.stored) && AllOfPairings(s.tasks, s.requests)
  }

  /** Whoever has written since the first `n` writes has not bumped the generation yet. */
  predicate WritersWait(s: State, n: nat) {
    forall k :: n <= k < |s.writes| ==> WaitsAt(s.tasks, s.writes[k].task)
  }

  predicate Informed(t: Task, s: State) {
    InSync(t.phase) && t.gen == s.gen && t.mail.Some? && t.mail.value.Read? ==>
      && Since(s, t.mail.value.cred, t.mail.value.since)
      && WritersWait(s, t.mail.value.since)
  }

  predicate AllInformed(s: State) {
    forall i :: 0 <= i < |s.tasks| ==> Informed(s.tasks[i], s)
  }

  // ---- the installation the projection comes from -----------------------------------------------

  /** The last installation, if no revoke has come after it. */
  function LatestInstall(log: seq<Event>): (e: Option<Event>)
    ensures e.Some? ==> e.value.Installed?
  {
    if log == [] || Last(log).Revoked? then None
    else if Last(log).Installed? then Some(Last(log))
    else LatestInstall(Init(log))
  }

  /** This pairing has stored its credential and bumped the generation since the last installation. */
  predicate BumpedSince(log: seq<Event>, j: nat) {
    log != [] && !Last(log).Installed? && (Last(log) == PairBumped(j) || BumpedSince(Init(log), j))
  }

  /** Whoever has written since the first `n` writes has bumped since the last installation, or is about to. */
  predicate WritersBump(s: State, n: nat) {
    forall k :: n <= k < |s.writes| ==> WaitsAt(s.tasks, s.writes[k].task) || BumpedSince(s.log, s.writes[k].task)
  }

  predicate Projected(s: State) {
    match LatestInstall(s.log)
    case None => s.index == map[]
    case Some(e) =>
      && s.index == ByVariant(e.targets) && (e.began.None? ==> e.targets == [])
      && Fingerprint(e.began) == Fingerprint(e.seen) && Since(s, e.seen, e.since)
      && WritersBump(s, e.since)
  }

  predicate Shaped(tasks: seq<Task>, requests: seq<Request>) {
    AllOwned(tasks, requests) && OneEach(requests) && Idle(tasks)
  }

  predicate Sound(s: State) {
    && Shaped(s.tasks, s.requests) && ReadsThenPairings(s.tasks, s.requests, s.gen)
    && AllInformed(s) && Projected(s)
  }

  lemma LogGrows(log: seq<Event>, e: Event)
    ensures LatestInstall(log + [e]) ==
      if e.Revoked? then None else if e.Installed? then Some(e) else LatestInstall(log)
    ensures forall j: nat :: BumpedSince(log + [e], j) <==> !e.Installed? && (e == PairBumped(j) || BumpedSince(log, j))
  {
    assert Init(log + [e]) == log;
  }

  // ---- what a handler that moves on leaves as it was ----------------------------------------------

  /** Task `i` has no credential write outstanding, unless it goes on awaiting it. */
  predicate MayMove(requests: seq<Request>, i: nat, t: Task) {
    forall p :: 0 <= p < |requests| && requests[p].task == i ==> !requests[p].SetCredential? || t.phase.PairWrite?
  }

  lemma MoveKeepsPairings(tasks: seq<Task>, requests: seq<Request>, gen: nat, i: nat, t: Task)
    requires i < |tasks| && MayMove(requests, i, t)
    ensures AllOfPairings(tasks, requests) ==> AllOfPairings(tasks[i := t], requests)
    ensures ReadsThenPairings(tasks, requests, gen) ==> ReadsThenPairings(tasks[i := t], requests, gen)
  {
    forall p | 0 <= p < |requests| && OfPairing(tasks, requests[p])
      ensures OfPairing(tasks[i := t], requests[p])
    {
    }
  }

  /** A pairing that waits goes on waiting while its task stays as it is. */
  lemma StillWaits(tasks: seq<Task>, later: seq<Task>)
    requires |tasks| <= |later| && forall j :: 0 <= j < |tasks| && Waits(tasks[j]) ==> Waits(later[j])
    ensures forall j: nat :: WaitsAt(tasks, j) ==> WaitsAt(later, j)
  {
  }

  /** A step after which the reads say what they said: storage is as it was, and no removal was issued. */
  ghost predicate Keeps(s: State, s': State) {
    && s'.writes == s.writes && s'.stored == s.stored && s'.gen == s.gen
    && (AllOfPairings(s.tasks, s.requests) ==> AllOfPairings(s'.tasks, s'.requests))
    && (forall j: nat :: WaitsAt(s.tasks, j) ==> WaitsAt(s'.tasks, j))
  }

  predicate SaysNothing(t: Task) {
    t.mail.Some? && t.mail.value.Read? ==> !InSync(t.phase)
  }

  lemma KeepsInformed(s: State, s': State)
    requires Keeps(s, s') && AllInformed(s)
    requires forall j :: 0 <= j < |s'.tasks| ==>
      SaysNothing(s'.tasks[j]) || (j < |s.tasks| && s'.tasks[j] == s.tasks[j])
    ensures AllInformed(s')
  {
    forall j | 0 <= j < |s'.tasks|
      ensures Informed(s'.tasks[j], s')
    {
      if j < |s.tasks| { assert Informed(s.tasks[j], s); }
    }
  }

  /** A step that gives out a new generation leaves every earlier read without effect. */
  lemma BumpInforms(s: State, s': State)
    requires PastTasks(s.tasks, s.gen) && s'.gen > s.gen
    requires forall j :: 0 <= j < |s'.tasks| ==>
      SaysNothing(s'.tasks[j]) || (j < |s.tasks| && s'.tasks[j] == s.tasks[j])
    ensures AllInformed(s')
  {
  }

  // ---- starting a handler --------------------------------------------------------------------------

  lemma StartShaped(tasks: seq<Task>, requests: seq<Request>, t: Task, r: Request)
    requires Shaped(tasks, requests) && r.task == |tasks| && t.mail.None? && Awaits(t.phase, r)
    ensures Shaped(tasks + [t], requests + [r])
  {
    var tasks', requests' := tasks + [t], requests + [r];
    forall p | 0 <= p < |requests'|
      ensures Owned(tasks', requests'[p])
    {
      if p < |requests| { assert Owned(tasks, requests[p]); }
    }
    forall p, q | 0 <= p < q < |requests'|
      ensures requests'[p].task != requests'[q].task
    {
      assert Owned(tasks, requests[p]);
    }
  }

  lemma StartPairings(tasks: seq<Task>, requests: seq<Request>, t: Task, r: Request)
    requires AllOfPairings(tasks, requests) && r.GetCredential?
    ensures AllOfPairings(tasks + [t], requests + [r])
  {
    var tasks', requests' := tasks + [t], requests + [r];
    forall p | 0 <= p < |requests'|
      ensures OfPairing(tasks', requests'[p])
    {
      if p < |requests| { assert OfPairing(tasks, requests[p]); }
    }
  }

  /** No read of a generation that has just been given out is outstanding before its own. */
  lemma StartReads(tasks: seq<Task>, requests: seq<Request>, gen: nat, r: Request)
    requires PastReads(requests, gen)
    ensures ReadsThenPairings(tasks, requests + [r], gen + 1)
  {
  }

  lemma StartSyncKeepsSound(s: State)
    requires Quiet(s) && Sound(s)
    ensures Sound(Step(s, StartSync).value)
  {
    var s' := Step(s, StartSync).value;
    var t, r := Task(s.gen + 1, SyncRead, None), GetCredential(|s.tasks|, s.gen + 1);
    assert s'.tasks == s.tasks + [t] && s'.requests == s.requests + [r];
    StartShaped(s.tasks, s.requests, t, r);
    StartReads(s'.tasks, s.requests, s.gen, r);
    StartSyncProjects(s);
    BumpInforms(s, s');
  }

  lemma StartSyncProjects(s: State)
    requires Projected(s)
    ensures Projected(Step(s, StartSync).value)
  {
    var s' := Step(s, StartSync).value;
    var t, r := Task(s.gen + 1, SyncRead, None), GetCredential(|s.tasks|, s.gen + 1);
    assert s'.tasks == s.tasks + [t] && s'.requests == s.requests + [r];
    LogGrows(s.log, SyncBegan(|s.tasks|, s.gen + 1));
    if LatestInstall(s.log).Some? {
      StartPairings(s.tasks, s.requests, t, r);
      StillWaits(s.tasks, s'.tasks);
    }
  }

  lemma StartPairKeepsSound(s: State)
    requires Quiet(s) && Sound(s)
    ensures Sound(Step(s, StartPair).value)
  {
    var s' := Step(s, StartPair).value;
    StillWaits(s.tasks, s'.tasks);
    KeepsInformed(s, s');
  }

  lemma StartRevokeKeepsSound(s: State)
    requires Quiet(s) && Sound(s)
    ensures Sound(Step(s, StartRevoke).value)
  {
    var s' := Step(s, StartRevoke).value;
    var t, r := Task(0, RevokeRemove, None), RemoveCredential(|s.tasks|);
    assert s'.tasks == s.tasks + [t] && s'.requests == s.requests + [r];
    StartShaped(s.tasks, s.requests, t, r);
    StartReads(s'.tasks, s.requests, s.gen, r);
    LogGrows(s.log, Revoked);
    BumpInforms(s, s');
  }

  // ---- a handler that moves on ---------------------------------------------------------------------

  predicate Free(requests: seq<Request>, i: nat) {
    forall p :: 0 <= p < |requests| ==> requests[p].task != i
  }

  /** A handler that has its reply, or waits for the network, has no request outstanding. */
  lemma FreeToMove(tasks: seq<Task>, requests: seq<Request>, i: nat)
    requires Shaped(tasks, requests) && i < |tasks|
    requires (tasks[i].mail.Some? && !tasks[i].phase.Ended?) || tasks[i].phase.PairClaim? || tasks[i].phase.SyncFetch?
    ensures Free(requests, i)
  {
    forall p | 0 <= p < |requests|
      ensures requests[p].task != i
    {
      assert Owned(tasks, requests[p]);
    }
  }

  lemma MoveShaped(tasks: seq<Task>, requests: seq<Request>, i: nat, t: Task)
    requires Shaped(tasks, requests) && i < |tasks| && Free(requests, i) && t.mail.None?
    ensures Shaped(tasks[i := t], requests)
  {
    forall p | 0 <= p < |requests|
      ensures Owned(tasks[i := t], requests[p])
    {
      assert Owned(tasks, requests[p]);
    }
  }

  lemma IssueShaped(tasks: seq<Task>, requests: seq<Request>, i: nat, t: Task, r: Request)
    requires Shaped(tasks, requests) && i < |tasks| && Free(requests, i) && t.mail.None?
    requires r.task == i && Awaits(t.phase, r)
    ensures Shaped(tasks[i := t], requests + [r])
  {
    MoveShaped(tasks, requests, i, t);
    var tasks', requests' := tasks[i := t], requests + [r];
    forall p | 0 <= p < |requests'|
      ensures Owned(tasks', requests'[p])
    {
      if p < |requests| { assert Owned(tasks', requests[p]); }
    }
  }

  lemma IssuePairings(tasks: seq<Task>, requests: seq<Request>, gen: nat, i: nat, t: Task, r: Request)
    requires i < |tasks| && Free(requests, i) && OfPairing(tasks[i := t], r)
    ensures AllOfPairings(tasks, requests) ==> AllOfPairings(tasks[i := t], requests + [r])
    ensures ReadsThenPairings(tasks, requests, gen) ==> ReadsThenPairings(tasks[i := t], requests + [r], gen)
  {
    MoveKeepsPairings(tasks, requests, gen, i, t);
    var tasks', requests' := tasks[i := t], requests + [r];
    assert forall q :: 0 <= q < |requests| ==> requests'[q] == requests[q];
    forall p | 0 <= p < |requests'| && (p < |requests| ==> OfPairing(tasks', requests[p]))
      ensures OfPairing(tasks', requests'[p])
    {
    }
  }

  /** The same index, and storage and pairings no different: the projection comes from where it came. */
  lemma KeepsProjected(s: State, s': State)
    requires Keeps(s, s') && Projected(s) && s'.log == s.log && s'.index == s.index
    ensures Projected(s')
  {
  }

  /** A handler moves on and issues nothing. */
  lemma MoveKeepsSound(s: State, i: nat, t: Task, s': State)
    requires Sound(s) && i < |s.tasks| && Free(s.requests, i) && !Waits(s.tasks[i]) && t.mail.None?
    requires s' == s.(tasks := s.tasks[i := t])
    ensures Sound(s')
  {
    MoveShaped(s.tasks, s.requests, i, t);
    MoveKeepsPairings(s.tasks, s.requests, s.gen, i, t);
    StillWaits(s.tasks, s'.tasks);
    KeepsInformed(s, s');
    KeepsProjected(s, s');
  }

  /** A handler moves on and issues a request that removes no credential. */
  lemma IssueKeepsSound(s: State, i: nat, t: Task, r: Request, s': State)
    requires Sound(s) && i < |s.tasks| && Free(s.requests, i) && !Waits(s.tasks[i]) && t.mail.None?
    requires r.task == i && Awaits(t.phase, r) && !r.RemoveCredential?
    requires s' == s.(tasks := s.tasks[i := t], requests := s.requests + [r], quiet := s'.quiet)
    ensures Sound(s')
  {
    IssueShaped(s.tasks, s.requests, i, t, r);
    IssuePairings(s.tasks, s.requests, s.gen, i, t, r);
    StillWaits(s.tasks, s'.tasks);
    KeepsInformed(s, s');
    KeepsProjected(s, s');
  }

  lemma NetworkKeepsSound(s: State, l: Label)
    requires Sound(s) && (l.Claimed? || l.ClaimFailed? || l.Fetched?) && Step(s, l).Some?
    ensures Sound(Step(s, l).value)
  {
    var s' := Step(s, l).value;
    FreeToMove(s.tasks, s.requests, l.i);
    match l
    case Claimed(i, cred) => IssueKeepsSound(s, i, s.tasks[i].(phase := PairWrite), SetCredential(i, cred), s');
    case ClaimFailed(i) => MoveKeepsSound(s, i, s.tasks[i].(phase := Ended), s');
    case Fetched(i, _) => IssueKeepsSound(s, i, s'.tasks[i], GetCredential(i, s.tasks[i].gen), s');
  }

  lemma ReadKeepsSound(s: State, i: nat)
    requires Sound(s) && i < |s.tasks| && s.tasks[i].phase.SyncRead? && Resumed(s, i).Some?
    ensures Sound(Resumed(s, i).value)
  {
    var s' := Resumed(s, i).value;
    FreeToMove(s.tasks, s.requests, i);
    if s.tasks[i].mail.value.cred.None? {
      IssueKeepsSound(s, i, s'.tasks[i], GetCredential(i, s.tasks[i].gen), s');
    } else {
      MoveKeepsSound(s, i, s'.tasks[i], s');
    }
  }

  lemma RevokeKeepsSound(s: State, i: nat)
    requires Sound(s) && i < |s.tasks| && Resumed(s, i).Some?
    requires s.tasks[i].phase.RevokeRemove? || s.tasks[i].phase.RevokeMark?
    ensures Sound(Resumed(s, i).value)
  {
    var s' := Resumed(s, i).value;
    FreeToMove(s.tasks, s.requests, i);
    if s.tasks[i].phase.RevokeRemove? {
      IssueKeepsSound(s, i, s'.tasks[i], SetCapability(i), s');
    } else {
      MoveKeepsSound(s, i, s'.tasks[i], s');
    }
  }

  /** A bump with a task moved on and a harmless request issued: only the projection remains to be looked at. */
  lemma BumpKeepsSound(s: State, i: nat, t: Task, r: Request, s': State)
    requires Quiet(s) && Sound(s) && i < |s.tasks| && Free(s.requests, i) && t.mail.None?
    requires r.task == i && Awaits(t.phase, r)
    requires s'.tasks == s.tasks[i := t] && s'.requests == s.requests + [r] && s'.gen == s.gen + 1
    requires Projected(s')
    ensures Sound(s')
  {
    IssueShaped(s.tasks, s.requests, i, t, r);
    StartReads(s'.tasks, s.requests, s.gen, r);
    BumpInforms(s, s');
  }

  lemma PairWriteKeepsSound(s: State, i: nat)
    requires Quiet(s) && Sound(s) && i < |s.tasks| && s.tasks[i].phase.PairWrite? && Resumed(s, i).Some?
    ensures Sound(Resumed(s, i).value)
  {
    var s' := Resumed(s, i).value;
    FreeToMove(s.tasks, s.requests, i);
    LogGrows(s.log, PairBumped(i));
    IssuePairings(s.tasks, s.requests, s.gen, i, s'.tasks[i], SetCapability(i));
    BumpKeepsSound(s, i, s'.tasks[i], SetCapability(i), s');
  }

  lemma PairReadyKeepsSound(s: State, i: nat)
    requires Quiet(s) && Sound(s) && i < |s.tasks| && s.tasks[i].phase.PairReady? && Resumed(s, i).Some?
    ensures Sound(Resumed(s, i).value)
  {
    var s' := Resumed(s, i).value;
    FreeToMove(s.tasks, s.requests, i);
    LogGrows(s.log, SyncBegan(i, s.gen + 1));
    IssuePairings(s.tasks, s.requests, s.gen, i, s'.tasks[i], GetCredential(i, s.gen + 1));
    StillWaits(s.tasks, s'.tasks);
    BumpKeepsSound(s, i, s'.tasks[i], GetCredential(i, s.gen + 1), s');
  }

  /** The installation a sync ends with rests on what its last read was told. */
  lemma InstallProjects(s: State, i: nat)
    requires Sound(s) && i < |s.tasks| && s.tasks[i].phase.SyncCheck? && Resumed(s, i).Some?
    requires Resumed(s, i).value.log != s.log
    ensures Projected(Resumed(s, i).value)
  {
    var s', t := Resumed(s, i).value, s.tasks[i];
    FreeToMove(s.tasks, s.requests, i);
    assert Informed(t, s);
    LogGrows(s.log, Last(s'.log));
    MoveKeepsPairings(s.tasks, s.requests, s.gen, i, s'.tasks[i]);
    StillWaits(s.tasks, s'.tasks);
  }

  lemma CheckKeepsSound(s: State, i: nat)
    requires Sound(s) && i < |s.tasks| && s.tasks[i].phase.SyncCheck? && Resumed(s, i).Some?
    ensures Sound(Resumed(s, i).value)
  {
    var s', t := Resumed(s, i).value, s.tasks[i].(phase := Ended, mail := None);
    FreeToMove(s.tasks, s.requests, i);
    var moved := s.(tasks := s.tasks[i := t]);
    MoveKeepsSound(s, i, t, moved);
    if s'.log != s.log {
      InstallProjects(s, i);
      KeepsInformed(moved, s');
    }
  }

  lemma ResumeKeepsSound(s: State, i: nat)
    requires Quiet(s) && Sound(s) && i < |s.tasks| && Resumed(s, i).Some?
    ensures Sound(Resumed(s, i).value)
  {
    match s.tasks[i].phase
    case SyncRead => ReadKeepsSound(s, i);
    case SyncCheck(_, _) => CheckKeepsSound(s, i);
    case PairWrite => PairWriteKeepsSound(s, i);
    case PairReady => PairReadyKeepsSound(s, i);
    case _ => RevokeKeepsSound(s, i);
  }

  // ---- storage ------------------------------------------------------------------------------------------

  lemma FailKeepsSound(s: State)
    requires Sound(s) && s.requests != []
    ensures Sound(Failed(s))
  {
    var r, s' := s.requests[0], Failed(s);
    var t := s.tasks[r.task].(phase := Ended, mail := None);
    var later := s.(requests := s.requests[1..]);
    assert Owned(s.tasks, r);
    RestKeepsSound(s);
    MoveKeepsSound(later, r.task, t, s');
  }

  /** Without the request issued longest ago the rest is as sound. */
  lemma RestKeepsSound(s: State)
    requires Sound(s) && s.requests != []
    ensures Sound(s.(requests := s.requests[1..])) && Free(s.requests[1..], s.requests[0].task)
  {
    var s' := s.(requests := s.requests[1..]);
    KeepsInformed(s, s');
    KeepsProjected(s, s');
  }

  lemma ServedShaped(s: State)
    requires Sound(s) && s.requests != []
    ensures var s' := Served(s); Shaped(s'.tasks, s'.requests) && ReadsThenPairings(s'.tasks, s'.requests, s'.gen)
  {
    var r, s' := s.requests[0], Served(s);
    assert Owned(s.tasks, r);
    RestKeepsSound(s);
    forall p | 0 <= p < |s'.requests|
      ensures Owned(s'.tasks, s'.requests[p])
        && (OfPairing(s.tasks, s'.requests[p]) ==> OfPairing(s'.tasks, s'.requests[p]))
    {
      assert Owned(s.tasks, s.requests[p + 1]);
    }
    forall p, q | 0 <= p < q < |s'.requests| && s'.requests[p].GetCredential? && s'.requests[p].gen == s'.gen
      ensures OfPairing(s'.tasks, s'.requests[q])
    {
      assert OfPairing(s.tasks, s.requests[q + 1]);
    }
  }

  /** A pairing's write is all that storage can serve since the read, and its handler waits from then on. */
  lemma ServedSince(s: State, seen: Option<Credential>, n: nat)
    requires Sound(s) && s.requests != [] && Since(s, seen, n)
    ensures Since(Served(s), seen, n)
    ensures Served(s).writes != s.writes ==> WaitsAt(Served(s).tasks, Last(Served(s).writes).task)
    ensures forall k :: 0 <= k < |s.writes| ==> Served(s).writes[k] == s.writes[k]
    ensures |s.writes| <= |Served(s).writes| <= |s.writes| + 1
  {
    var r, s' := s.requests[0], Served(s);
    assert Owned(s.tasks, r) && OfPairing(s.tasks, r);
    forall p | 0 <= p < |s'.requests|
      ensures OfPairing(s'.tasks, s'.requests[p])
    {
      assert OfPairing(s.tasks, s.requests[p + 1]);
    }
    if r.SetCredential? && !s.tasks[r.task].phase.Ended? {
      assert Waits(s'.tasks[r.task]);
    }
  }

  lemma ServedWaits(s: State)
    requires s.requests != []
    ensures forall j: nat :: WaitsAt(s.tasks, j) ==> WaitsAt(Served(s).tasks, j)
  {
    StillWaits(s.tasks, Served(s).tasks);
  }

  /** What a read that storage serves now tells its sync. */
  lemma ReadIsSince(s: State)
    requires Sound(s) && s.requests != [] && s.requests[0].GetCredential? && s.requests[0].gen == s.gen
    ensures Since(Served(s), s.stored, |s.writes|)
  {
    var r, s' := s.requests[0], Served(s);
    assert Owned(s.tasks, r);
    forall p | 0 <= p < |s'.requests|
      ensures OfPairing(s'.tasks, s'.requests[p])
    {
      assert OfPairing(s.tasks, s.requests[p + 1]);
    }
  }

  lemma ServedInforms(s: State, i: nat)
    requires Sound(s) && s.requests != [] && i < |s.tasks|
    ensures Informed(Served(s).tasks[i], Served(s))
  {
    var r, s', t := s.requests[0], Served(s), s.tasks[i];
    if s'.tasks[i] != t {
      if r.GetCredential? && r.gen == s.gen { ReadIsSince(s); }
    } else if InSync(t.phase) && t.gen == s.gen && t.mail.Some? && t.mail.value.Read? {
      assert Informed(t, s);
      ServedSince(s, t.mail.value.cred, t.mail.value.since);
      ServedWaits(s);
    }
  }

  lemma ServeKeepsSound(s: State)
    requires Sound(s) && s.requests != []
    ensures Sound(Served(s))
  {
    ServedShaped(s);
    forall i | 0 <= i < |s.tasks|
      ensures Informed(Served(s).tasks[i], Served(s))
    {
      ServedInforms(s, i);
    }
    var e := LatestInstall(s.log);
    if e.Some? {
      ServedSince(s, e.value.seen, e.value.since);
      ServedWaits(s);
    }
  }

  lemma {:induction false} OrphansAreSome(requests: seq<Request>)
    requires OneEach(requests)
    ensures OneEach(Orphaned(requests))
    ensures forall p :: 0 <= p < |Orphaned(requests)| ==> Orphaned(requests)[p] in requests
  {
    if requests != [] {
      var rest := requests[1..];
      OrphansAreSome(rest);
      forall p | 0 <= p < |Orphaned(rest)|
        ensures Orphaned(rest)[p].task != requests[0].task
      {
        var q :| 0 <= q < |rest| && rest[q] == Orphaned(rest)[p];
        assert requests[q + 1] == rest[q];
      }
    }
  }

  lemma RespawnKeepsSound(s: State)
    requires Sound(s)
    ensures Sound(Step(s, Respawn).value)
  {
    var s' := Step(s, Respawn).value;
    OrphansAreSome(s.requests);
    OrphansAreNoReads(s.requests);
    forall p | 0 <= p < |s'.requests|
      ensures Owned(s'.tasks, s'.requests[p])
    {
      var q :| 0 <= q < |s.requests| && s.requests[q] == s'.requests[p];
      assert Owned(s.tasks, s.requests[q]);
    }
  }

  lemma StepKeepsSound(s: State, l: Label)
    requires Quiet(s) && Sound(s) && Step(s, l).Some?
    ensures Sound(Step(s, l).value)
  {
    match l
    case StartSync => StartSyncKeepsSound(s);
    case StartPair => StartPairKeepsSound(s);
    case StartRevoke => StartRevokeKeepsSound(s);
    case Serve => ServeKeepsSound(s);
    case ServeFails => FailKeepsSound(s);
    case Resume(i) => ResumeKeepsSound(s, i);
    case Respawn => RespawnKeepsSound(s);
    case _ => NetworkKeepsSound(s, l);
  }

  lemma {:induction false} ExecKeepsSound(stored: Option<Credential>, run: seq<Label>)
    requires Exec(stored, run).Some?
    ensures Sound(Exec(stored, run).value)
  {
    if run != [] {
      ExecKeepsSound(stored, Init(run));
      ExecKeepsQuiet(stored, Init(run));
      StepKeepsSound(Exec(stored, Init(run)).value, Last(run));
    }
  }

  // ---- what pairings were given -----------------------------------------------------------------------

  predicate RequestClaimed(run: seq<Label>, r: Request) {
    r.SetCredential? ==> Claimed(r.task, r.cred) in run
  }

  predicate WriteClaimed(run: seq<Label>, w: Write) {
    w.left.Some? ==> Claimed(w.task, w.left.value) in run
  }

  /** Every credential written or to be written is one that a pairing was given. */
  predicate AllClaimed(run: seq<Label>, requests: seq<Request>, writes: seq<Write>) {
    (forall p :: 0 <= p < |requests| ==> RequestClaimed(run, requests[p]))
    && (forall k :: 0 <= k < |writes| ==> WriteClaimed(run, writes[k]))
  }

  lemma ClaimsStay(run: seq<Label>, l: Label, requests: seq<Request>, writes: seq<Write>)
    requires AllClaimed(run, requests, writes)
    ensures AllClaimed(run + [l], requests, writes)
  {
    forall p | 0 <= p < |requests| ensures RequestClaimed(run + [l], requests[p]) {
      assert RequestClaimed(run, requests[p]);
    }
    forall k | 0 <= k < |writes| ensures WriteClaimed(run + [l], writes[k]) {
      assert WriteClaimed(run, writes[k]);
    }
  }

  lemma IssueKeepsClaims(run: seq<Label>, requests: seq<Request>, writes: seq<Write>, r: Request)
    requires AllClaimed(run, requests, writes) && RequestClaimed(run, r)
    ensures AllClaimed(run, requests + [r], writes)
  {
  }

  lemma ServeKeepsClaims(run: seq<Label>, s: State)
    requires AllClaimed(run, s.requests, s.writes) && s.requests != []
    ensures AllClaimed(run, Served(s).requests, Served(s).writes)
  {
    assert RequestClaimed(run, s.requests[0]);
  }

  lemma OrphansKeepClaims(run: seq<Label>, requests: seq<Request>, writes: seq<Write>)
    requires AllClaimed(run, requests, writes) && OneEach(requests)
    ensures AllClaimed(run, Orphaned(requests), writes)
  {
    OrphansAreSome(requests);
    forall p | 0 <= p < |Orphaned(requests)| ensures RequestClaimed(run, Orphaned(requests)[p]) {
      var q :| 0 <= q < |requests| && requests[q] == Orphaned(requests)[p];
      assert RequestClaimed(run, requests[q]);
    }
  }

  lemma ResumeKeepsClaims(run: seq<Label>, s: State, i: nat)
    requires AllClaimed(run, s.requests, s.writes) && i < |s.tasks| && Resumed(s, i).Some?
    ensures AllClaimed(run, Resumed(s, i).value.requests, Resumed(s, i).value.writes)
  {
    var s' := Resumed(s, i).value;
    if s'.requests != s.requests { IssueKeepsClaims(run, s.requests, s.writes, Last(s'.requests)); }
  }

  lemma StepKeepsClaims(run: seq<Label>, s: State, l: Label)
    requires AllClaimed(run, s.requests, s.writes) && OneEach(s.requests) && Step(s, l).Some?
    ensures AllClaimed(run + [l], Step(s, l).value.requests, Step(s, l).value.writes)
  {
    ClaimsStay(run, l, s.requests, s.writes);
    match l
    case Serve => ServeKeepsClaims(run + [l], s);
    case ServeFails =>
    case Resume(i) => ResumeKeepsClaims(run + [l], s, i);
    case Respawn => OrphansKeepClaims(run + [l], s.requests, s.writes);
    case Claimed(i, cred) => IssueKeepsClaims(run + [l], s.requests, s.writes, SetCredential(i, cred));
    case Fetched(i, _) => IssueKeepsClaims(run + [l], s.requests, s.writes, GetCredential(i, s.tasks[i].gen));
    case _ =>
  }

  lemma {:induction false} ExecKeepsClaims(stored: Option<Credential>, run: seq<Label>)
    requires Exec(stored, run).Some?
    ensures AllClaimed(run, Exec(stored, run).value.requests, Exec(stored, run).value.writes)
  {
    if run != [] {
      ExecKeepsClaims(stored, Init(run));
      ExecKeepsSound(stored, Init(run));
      StepKeepsClaims(Init(run), Exec(stored, Init(run)).value, Last(run));
      assert run == Init(run) + [Last(run)];
    }
  }

  lemma ResumesMoveOn(s: State, i: nat, j: nat)
    requires i < |s.tasks| && Resumed(s, i).Some? && j < |s.tasks| && !s.tasks[j].phase.PairClaim?
    ensures j < |Resumed(s, i).value.tasks| && !Resumed(s, i).value.tasks[j].phase.PairClaim?
  {
  }

  lemma StepsMoveOn(s: State, l: Label, j: nat)
    requires Step(s, l).Some? && j < |s.tasks| && !s.tasks[j].phase.PairClaim?
    ensures j < |Step(s, l).value.tasks| && !Step(s, l).value.tasks[j].phase.PairClaim?
  {
    if l.Resume? { ResumesMoveOn(s, l.i, j); }
  }

  lemma {:induction false} ClaimedMovesOn(stored: Option<Credential>, run: seq<Label>, j: nat, c: Credential)
    requires Exec(stored, run).Some? && Claimed(j, c) in run
    ensures j < |Exec(stored, run).value.tasks| && !Exec(stored, run).value.tasks[j].phase.PairClaim?
  {
    assert run == Init(run) + [Last(run)];
    if Last(run) != Claimed(j, c) {
      ClaimedMovesOn(stored, Init(run), j, c);
      StepsMoveOn(Exec(stored, Init(run)).value, Last(run), j);
    }
  }

  /** A pairing is given one credential. */
  lemma {:induction false} OneClaimEach(stored: Option<Credential>, run: seq<Label>, j: nat, c: Credential,
                                        c': Credential)
    requires Exec(stored, run).Some? && Claimed(j, c) in run && Claimed(j, c') in run
    ensures c == c'
  {
    var before, l := Init(run), Last(run);
    assert run == before + [l];
    if l == Claimed(j, c) || l == Claimed(j, c') {
      if Claimed(j, c) in before { ClaimedMovesOn(stored, before, j, c); }
      if Claimed(j, c') in before { ClaimedMovesOn(stored, before, j, c'); }
    } else {
      OneClaimEach(stored, before, j, c, c');
    }
  }

  // ---- main results ---------------------------------------------------------------------------------------

  /** The next step of task `i` installs what its sync brought: the guard passes on the reply it holds. */
  predicate AboutToInstall(s: State, i: nat) {
    && i < |s.tasks| && s.tasks[i].phase.SyncCheck? && s.tasks[i].gen == s.gen
    && s.tasks[i].mail.Some? && s.tasks[i].mail.value.Read?
    && Fingerprint(s.tasks[i].mail.value.cred) == Fingerprint(s.tasks[i].phase.began)
  }

  /** This pairing was given a credential of the same identity. */
  ghost predicate SameIdentity(run: seq<Label>, j: nat, began: Option<Credential>) {
    forall c :: Claimed(j, c) in run ==> Fingerprint(Some(c)) == Fingerprint(began)
  }

  /** If anyone has written since the first `n` writes, the last to do so is a pairing of the same identity. */
  ghost predicate OvertakerAgrees(run: seq<Label>, writes: seq<Write>, n: nat, began: Option<Credential>) {
    |writes| > n ==> SameIdentity(run, Last(writes).task, began)
  }

  /** The last writer since the first `n` writes is a pairing, and storage holds what it was given. */
  predicate HeldByWriter(run: seq<Label>, writes: seq<Write>, n: nat, stored: Option<Credential>) {
    |writes| > n ==> stored.Some? && Claimed(Last(writes).task, stored.value) in run
  }

  /** This pairing was given a credential of the same id and account. */
  ghost predicate GivenSame(run: seq<Label>, j: nat, began: Option<Credential>) {
    forall c :: Claimed(j, c) in run ==> Same(Some(c), began)
  }

  ghost predicate OvertakerIsSame(run: seq<Label>, writes: seq<Write>, n: nat, began: Option<Credential>) {
    |writes| > n ==> GivenSame(run, Last(writes).task, began)
  }

  /** For ids without a blank the two readings of identity are one. */
  lemma GivenIff(stored: Option<Credential>, run: seq<Label>, j: nat, began: Option<Credential>)
    requires PlainInputs(stored, run) && Plain(began)
    ensures GivenSame(run, j, began) <==> SameIdentity(run, j, began)
  {
    forall c | Claimed(j, c) in run
      ensures Same(Some(c), began) <==> Fingerprint(Some(c)) == Fingerprint(began)
    {
      var i :| 0 <= i < |run| && run[i] == Claimed(j, c);
      assert PlainLabel(run[i]);
      FingerprintTells(Some(c), began);
    }
  }

  lemma AgreesIff(stored: Option<Credential>, run: seq<Label>, seen: Option<Credential>, n: nat,
                  began: Option<Credential>)
    requires Exec(stored, run).Some?
    requires Held(seen, n, Exec(stored, run).value.writes, Exec(stored, run).value.stored)
    requires Fingerprint(seen) == Fingerprint(began)
    ensures var s := Exec(stored, run).value;
      && HeldByWriter(run, s.writes, n, s.stored)
      && (Fingerprint(s.stored) == Fingerprint(began) <==> OvertakerAgrees(run, s.writes, n, began))
  {
    var s := Exec(stored, run).value;
    ExecKeepsClaims(stored, run);
    if |s.writes| > n {
      var w := Last(s.writes);
      assert WriteClaimed(run, w);
      forall c | Claimed(w.task, c) in run ensures Some(c) == s.stored {
        OneClaimEach(stored, run, w.task, c, s.stored.value);
      }
    }
  }

  lemma IdentityAgreesIff(stored: Option<Credential>, run: seq<Label>, n: nat, began: Option<Credential>)
    requires Exec(stored, run).Some? && PlainInputs(stored, run) && Plain(began)
    requires var s := Exec(stored, run).value;
      Fingerprint(s.stored) == Fingerprint(began) <==> OvertakerAgrees(run, s.writes, n, began)
    ensures var s := Exec(stored, run).value; Same(s.stored, began) <==> OvertakerIsSame(run, s.writes, n, began)
  {
    var s := Exec(stored, run).value;
    ExecKeepsPlain(stored, run);
    FingerprintTells(s.stored, began);
    if |s.writes| > n { GivenIff(stored, run, Last(s.writes).task, began); }
  }

  /**
    Wherever a result is about to be installed: storage holds what the guard saw, or what a
    pairing was given that waits between its write and its bump; so the identity in storage
    is the one the sync began with exactly when the pairing that wrote last since the guard's
    read, if there is one, was given that identity. Said of fingerprints, and of ids and
    accounts when ids have no blank.
   */
  lemma InstalledUnderStoredCredential(stored: Option<Credential>, run: seq<Label>, i: nat)
    requires Exec(stored, run).Some? && AboutToInstall(Exec(stored, run).value, i)
    ensures var s := Exec(stored, run).value;
      var t := s.tasks[i];
      var n := t.mail.value.since;
      && n <= |s.writes| && (|s.writes| == n ==> s.stored == t.mail.value.cred)
      && WritersWait(s, n) && HeldByWriter(run, s.writes, n, s.stored)
      && (Fingerprint(s.stored) == Fingerprint(t.phase.began) <==> OvertakerAgrees(run, s.writes, n, t.phase.began))
      && (PlainInputs(stored, run) ==>
            && Same(t.mail.value.cred, t.phase.began)
            && (Same(s.stored, t.phase.began) <==> OvertakerIsSame(run, s.writes, n, t.phase.began)))
  {
    ExecKeepsSound(stored, run);
    var s := Exec(stored, run).value;
    var t := s.tasks[i];
    assert Informed(t, s);
    AgreesIff(stored, run, t.mail.value.cred, t.mail.value.since, t.phase.began);
    if PlainInputs(stored, run) {
      ExecKeepsPlain(stored, run);
      assert PlainTask(t);
      FingerprintTells(t.mail.value.cred, t.phase.began);
      IdentityAgreesIff(stored, run, t.mail.value.since, t.phase.began);
    }
  }

  /** The step that installs is exactly the one taken where `AboutToInstall` holds. */
  lemma InstallsNext(s: State, i: nat)
    requires i < |s.tasks| && Resumed(s, i).Some?
    ensures AboutToInstall(s, i) <==>
      Resumed(s, i).value.log != s.log && Last(Resumed(s, i).value.log).Installed?
  {
  }

  /** What a sync that ends brings: the targets it was answered with, if it had a credential and an answer. */
  predicate Brings(t: Task, e: Event) {
    && t.phase.SyncCheck? && e.Installed? && e.began == t.phase.began
    && (t.phase.began.Some? && t.phase.result.Some? ==> e.targets == t.phase.result.value)
    && (t.phase.began.None? || t.phase.result.None? ==> e.targets == [])
  }

  /**
    A sync that acts on its guard's read installs exactly when it is the newest and the read
    found the id and account it began with, or none when it began with none; then the
    projection becomes what it brought, under its generation and the account it began with.
   */
  lemma InstallsIffSame(stored: Option<Credential>, run: seq<Label>, i: nat)
    requires Exec(stored, run).Some? && PlainInputs(stored, run)
    requires i < |Exec(stored, run).value.tasks| && Exec(stored, run).value.tasks[i].phase.SyncCheck?
    requires var t := Exec(stored, run).value.tasks[i]; t.mail.Some? && t.mail.value.Read?
    ensures Resumed(Exec(stored, run).value, i).Some?
    ensures var s, s' := Exec(stored, run).value, Resumed(Exec(stored, run).value, i).value;
      var t := s.tasks[i];
      if t.gen == s.gen && Same(t.mail.value.cred, t.phase.began) then
        && s'.log != [] && Brings(t, Last(s'.log)) && s'.index == ByVariant(Last(s'.log).targets)
        && s'.owner.generation == t.gen
        && s'.owner.account == (if t.phase.began.Some? then Some(t.phase.began.value.account) else None)
      else s'.log == s.log && s'.index == s.index && s'.owner == s.owner
  {
    ExecKeepsPlain(stored, run);
    var t := Exec(stored, run).value.tasks[i];
    assert PlainTask(t);
    FingerprintTells(t.mail.value.cred, t.phase.began);
  }

  /**
    A result is installed under the stored identity, unless a pairing of another waits between its
    write and its bump.
   */
  lemma InstalledUnlessPairingWaits(stored: Option<Credential>, run: seq<Label>, i: nat)
    requires Exec(stored, run).Some? && AboutToInstall(Exec(stored, run).value, i)
    ensures var s := Exec(stored, run).value;
      var began := s.tasks[i].phase.began;
      && (|| Fingerprint(s.stored) == Fingerprint(began)
          || exists j: nat :: WaitsAt(s.tasks, j) && !SameIdentity(run, j, began))
      && (PlainInputs(stored, run) ==>
            Same(s.stored, began) || exists j: nat :: WaitsAt(s.tasks, j) && !GivenSame(run, j, began))
  {
    InstalledUnderStoredCredential(stored, run, i);
    var s := Exec(stored, run).value;
    if |s.writes| > s.tasks[i].mail.value.since {
      assert WaitsAt(s.tasks, Last(s.writes).task);
    }
  }

  /**
    Every installation, in every run: nothing has begun since that makes its sync stale, the
    projection becomes what the sync brought, and the credential in storage at that moment has
    the fingerprint of the one the sync began with exactly when the pairing that wrote last
    since the guard's read, if there is one, was given that identity; so unless a pairing that
    was given another one waits between its write and its bump. When ids have no blank, this is
    said of id and account.
   */
  lemma InstallationIsJustified(stored: Option<Credential>, run: seq<Label>, i: nat)
    requires Exec(stored, run + [Resume(i)]).Some?
    requires var log := Exec(stored, run + [Resume(i)]).value.log; log != [] && Last(log).Installed?
    requires Exec(stored, run).Some? && Exec(stored, run + [Resume(i)]).value.log != Exec(stored, run).value.log
    ensures var s, s' := Exec(stored, run).value, Exec(stored, run + [Resume(i)]).value;
      var e := Last(s'.log);
      && i < |s.tasks| && Brings(s.tasks[i], e)
      && e.task == i && FreshAt(s'.log, i, |s'.log| - 1) && s'.index == ByVariant(e.targets)
      && (Fingerprint(s.stored) == Fingerprint(e.began) <==> OvertakerAgrees(run, s.writes, e.since, e.began))
      && (|| Fingerprint(s.stored) == Fingerprint(e.began)
          || exists j: nat :: WaitsAt(s.tasks, j) && !SameIdentity(run, j, e.began))
      && (PlainInputs(stored, run) ==>
            && (Same(s.stored, e.began) <==> OvertakerIsSame(run, s.writes, e.since, e.began))
            && (Same(s.stored, e.began) || exists j: nat :: WaitsAt(s.tasks, j) && !GivenSame(run, j, e.began)))
  {
    ExecThen(stored, run, Resume(i));
    var s, s' := Exec(stored, run).value, Exec(stored, run + [Resume(i)]).value;
    InstallsNext(s, i);
    InstalledUnderStoredCredential(stored, run, i);
    InstalledUnlessPairingWaits(stored, run, i);
    OnlyFreshResultsAreInstalled(stored, run + [Resume(i)], |s'.log| - 1);
  }

  // ---- whose projection it is ------------------------------------------------------------------------------

  /** The account of the last installation's credential, if there was one and no revoke since. */
  function InstalledAccount(log: seq<Event>): Option<string> {
    match LatestInstall(log)
    case None => None
    case Some(e) => if e.began.Some? then Some(e.began.value.account) else None
  }

  lemma AccountGrows(log: seq<Event>, e: Event)
    ensures InstalledAccount(log + [e]) ==
      if e.Revoked? then None
      else if !e.Installed? then InstalledAccount(log)
      else if e.began.Some? then Some(e.began.value.account) else None
  {
    LogGrows(log, e);
  }

  lemma ResumeKeepsOwner(s: State, i: nat)
    requires i < |s.tasks| && Resumed(s, i).Some? && s.owner.account == InstalledAccount(s.log)
    ensures Resumed(s, i).value.owner.account == InstalledAccount(Resumed(s, i).value.log)
  {
    var s' := Resumed(s, i).value;
    if s'.log != s.log {
      assert s'.log == s.log + [Last(s'.log)];
      AccountGrows(s.log, Last(s'.log));
    }
  }

  lemma StepKeepsOwner(s: State, l: Label)
    requires Step(s, l).Some? && s.owner.account == InstalledAccount(s.log)
    ensures Step(s, l).value.owner.account == InstalledAccount(Step(s, l).value.log)
  {
    match l
    case StartSync => AccountGrows(s.log, SyncBegan(|s.tasks|, s.gen + 1));
    case StartRevoke => AccountGrows(s.log, Revoked);
    case Resume(i) => ResumeKeepsOwner(s, i);
    case _ =>
  }

  /** The account stamped on the projection is that of the credential the last installation was made with. */
  lemma {:induction false} OwnerIsTheInstaller(stored: Option<Credential>, run: seq<Label>)
    requires Exec(stored, run).Some?
    ensures Exec(stored, run).value.owner.account == InstalledAccount(Exec(stored, run).value.log)
  {
    if run != [] {
      OwnerIsTheInstaller(stored, Init(run));
      StepKeepsOwner(Exec(stored, Init(run)).value, Last(run));
    }
  }

  /**
    Identity quarantine, in every reachable state in which something is owned: the projection is
    what the last installation installed, under its account, and there is a credential. Whoever
    has written since that installation's guard read is a pairing that has bumped since, or is
    about to; storage holds what the last of them was given, and its identity is the
    installation's exactly when that pairing was given the same.
   */
  lemma OwnedByStoredCredential(stored: Option<Credential>, run: seq<Label>)
    requires Exec(stored, run).Some? && Exec(stored, run).value.index != map[]
    ensures var s := Exec(stored, run).value;
      && LatestInstall(s.log).Some?
      && var e := LatestInstall(s.log).value;
      && s.index == ByVariant(e.targets) && e.began.Some? && s.stored.Some? && e.since <= |s.writes|
      && s.owner.account == Some(e.began.value.account)
      && WritersBump(s, e.since) && HeldByWriter(run, s.writes, e.since, s.stored)
      && (Fingerprint(s.stored) == Fingerprint(e.began) <==> OvertakerAgrees(run, s.writes, e.since, e.began))
      && (PlainInputs(stored, run) ==>
            (Same(s.stored, e.began) <==> OvertakerIsSame(run, s.writes, e.since, e.began)))
  {
    ExecKeepsSound(stored, run);
    OwnerIsTheInstaller(stored, run);
    var s := Exec(stored, run).value;
    var e := LatestInstall(s.log).value;
    AgreesIff(stored, run, e.seen, e.since, e.began);
    if PlainInputs(stored, run) {
      ExecKeepsPlain(stored, run);
      LatestIsLogged(s.log);
      IdentityAgreesIff(stored, run, e.since, e.began);
    }
  }

  lemma {:induction false} LatestIsLogged(log: seq<Event>)
    requires LatestInstall(log).Some? && forall n :: 0 <= n < |log| ==> PlainEvent(log[n])
    ensures PlainEvent(LatestInstall(log).value)
  {
    if !Last(log).Installed? { LatestIsLogged(Init(log)); }
  }

  // ---- the two windows, each shown open --------------------------------------------------------------

  /** One sync from beginning to end, then a pairing with another credential up to the bump after its write. */
  function DirectRepair(cred: Credential, t: Target): seq<Label> {
    [StartSync, Serve, Resume(0), Fetched(0, Some([t])), Serve, Resume(0), StartPair, Claimed(1, cred), Serve,
     Resume(1)]
  }

  lemma DirectRepairFetched(previous: Credential, cred: Credential, t: Target)
    ensures var s := Exec(Some(previous), DirectRepair(cred, t)[..4]);
      && s.Some? && |s.value.tasks| == 1 && s.value.gen == 1 && s.value.stored == Some(previous)
      && s.value.writes == [] && s.value.requests == [GetCredential(0, 1)]
        && s.value.tasks[0] == Task(1, SyncCheck(Some(previous), Some([t])), None)
  {
    var stored, run := Some(previous), DirectRepair(cred, t);
    assert run[..0] == [];
    assert run[..1] == run[..0] + [StartSync];
    ExecThen(stored, run[..0], StartSync);
    assert run[..2] == run[..1] + [Serve];
    ExecThen(stored, run[..1], Serve);
    assert run[..3] == run[..2] + [Resume(0)];
    ExecThen(stored, run[..2], Resume(0));
    assert run[..4] == run[..3] + [Fetched(0, Some([t]))];
    ExecThen(stored, run[..3], Fetched(0, Some([t])));
  }

  lemma DirectRepairRead(previous: Credential, cred: Credential, t: Target)
    ensures var s := Exec(Some(previous), DirectRepair(cred, t)[..5]);
      && s.Some? && |s.value.tasks| == 1 && s.value.gen == 1 && s.value.requests == [] && s.value.writes == []
      && s.value.tasks[0] == Task(1, SyncCheck(Some(previous), Some([t])), Some(Read(Some(previous), 0)))
  {
    DirectRepairFetched(previous, cred, t);
    assert DirectRepair(cred, t)[..5] == DirectRepair(cred, t)[..4] + [Serve];
    ExecThen(Some(previous), DirectRepair(cred, t)[..4], Serve);
  }

  lemma DirectRepairInstalled(previous: Credential, cred: Credential, t: Target)
    ensures var s := Exec(Some(previous), DirectRepair(cred, t)[..6]);
      && s.Some? && |s.value.tasks| == 1 && s.value.gen == 1 && s.value.requests == []
      && s.value.index == map[t.variant := t]
  {
    DirectRepairRead(previous, cred, t);
    assert DirectRepair(cred, t)[..6] == DirectRepair(cred, t)[..5] + [Resume(0)];
    ExecThen(Some(previous), DirectRepair(cred, t)[..5], Resume(0));
    assert Init([t]) == [];
    assert ByVariant([t]) == map[t.variant := t];
  }

  lemma DirectRepairSynced(previous: Credential, cred: Credential, t: Target)
    ensures var s := Exec(Some(previous), DirectRepair(cred, t)[..7]);
      && s.Some? && |s.value.tasks| == 2 && s.value.gen == 1 && s.value.requests == []
      && s.value.index == map[t.variant := t] && s.value.tasks[1] == Task(0, PairClaim, None)
  {
    DirectRepairInstalled(previous, cred, t);
    assert DirectRepair(cred, t)[..7] == DirectRepair(cred, t)[..6] + [StartPair];
    ExecThen(Some(previous), DirectRepair(cred, t)[..6], StartPair);
  }

  /** A pairing that replaces a credential without a revoke keeps the old projection until its own sync ends. */
  lemma DirectRepairKeepsOldProjection(previous: Credential, cred: Credential, t: Target)
    ensures var s := Exec(Some(previous), DirectRepair(cred, t));
      && s.Some? && s.value.stored == Some(cred) && s.value.gen == 2
      && Resolved(s.value.index, Product(Some(t.variant))) == Some(t)
  {
    var stored, run := Some(previous), DirectRepair(cred, t);
    DirectRepairSynced(previous, cred, t);
    assert run[..8] == run[..7] + [Claimed(1, cred)];
    ExecThen(stored, run[..7], Claimed(1, cred));
    assert run[..9] == run[..8] + [Serve];
    ExecThen(stored, run[..8], Serve);
    assert run == run[..9] + [Resume(1)];
    ExecThen(stored, run[..9], Resume(1));
  }

  /** A sync whose guard has read, overtaken by a pairing's write before it acts on the reply. */
  function Overtaken(cred: Credential, t: Target): seq<Label> {
    [StartSync, Serve, Resume(0), Fetched(0, Some([t])), Serve, StartPair, Claimed(1, cred), Serve]
  }

  lemma OvertakenRead(previous: Credential, cred: Credential, t: Target)
    ensures var s := Exec(Some(previous), Overtaken(cred, t)[..6]);
      && s.Some? && |s.value.tasks| == 2 && s.value.gen == 1 && s.value.requests == [] && s.value.writes == []
      && s.value.tasks[0] == Task(1, SyncCheck(Some(previous), Some([t])), Some(Read(Some(previous), 0)))
      && s.value.tasks[1] == Task(0, PairClaim, None)
  {
    DirectRepairRead(previous, cred, t);
    assert Overtaken(cred, t)[..5] == DirectRepair(cred, t)[..5];
    assert Overtaken(cred, t)[..6] == Overtaken(cred, t)[..5] + [StartPair];
    ExecThen(Some(previous), Overtaken(cred, t)[..5], StartPair);
  }

  /** The old credential's result is about to be installed while storage holds the new one. */
  lemma OvertakenInstalls(previous: Credential, cred: Credential, t: Target)
    ensures var s := Exec(Some(previous), Overtaken(cred, t));
      && s.Some? && AboutToInstall(s.value, 0) && s.value.tasks[0].phase.began == Some(previous)
      && s.value.stored == Some(cred) && PairingWaits(s.value.tasks)
  {
    var stored, run := Some(previous), Overtaken(cred, t);
    OvertakenRead(previous, cred, t);
    assert run[..7] == run[..6] + [Claimed(1, cred)];
    ExecThen(stored, run[..6], Claimed(1, cred));
    assert run == run[..7] + [Serve];
    ExecThen(stored, run[..7], Serve);
    assert WaitsAt(Exec(stored, run).value.tasks, 1);
  }
}
