/**
  Owned-target syncs, pairings and revokes racing over asynchronous storage and network.

  One step is one event-loop task: what a handler runs between two awaits. Storage
  serves its requests in the order they were issued; a reply may be acted on much
  later. A storage request may fail, and the worker may be respawned at any time.
 */
module SyncProtocol {
  import opened Prelude
  import opened OwnedTargets

  datatype Credential = Credential(secret: string, id: string, account: string)

  /** The identity half of the staleness guard; the secret plays no part. */
  function Fingerprint(c: Option<Credential>): Option<string> {
    match c case None => None case Some(cred) => Some(cred.id + " " + cred.account)
  }

  datatype Phase =
    | SyncRead                                     // awaiting the credential read a sync begins with
    | SyncFetch(cred: Credential)                  // awaiting the owned-targets response
    | SyncCheck(began: Option<Credential>, result: Option<seq<Target>>)  // awaiting the credential read of the guard
    | PairClaim                                    // awaiting the pairing claim
    | PairWrite                                    // awaiting the credential write
    | PairReady                                    // awaiting the capability write
    | RevokeRemove                                 // awaiting the credential removal
    | RevokeMark                                   // awaiting the capability write
    | Ended

  /** A handler in flight; `gen` is the generation its sync was given, `mail` the storage reply not yet acted on. */
  datatype Task = Task(gen: nat, phase: Phase, mail: Option<Reply>)

  /** `since` counts the credential writes served before the read. */
  datatype Reply = Done | Read(cred: Option<Credential>, since: nat)

  /** A storage request that has been issued and not served. */
  datatype Request =
    | GetCredential(task: nat, gen: nat)  // `gen` names the sync whose promise it resolves
    | SetCredential(task: nat, cred: Credential)
    | RemoveCredential(task: nat)
    | SetCapability(task: nat)

  /** A credential write that storage has served: whose it was, and what it left. */
  datatype Write = Write(task: nat, left: Option<Credential>)

  /** What has happened to the generation and the projection, for reasoning only. */
  datatype Event =
    | SyncBegan(task: nat, gen: nat)
    | PairBumped(task: nat)
    | Revoked
    | Installed(task: nat, began: Option<Credential>, seen: Option<Credential>, since: nat, targets: seq<Target>)

  /**
    `writes`: the credential writes that storage has served so far; `quiet`: a
    revoke has run and no pairing has issued a credential write since. Both for reasoning only.
   */
  datatype State = State(
    gen: nat, index: map<int, Target>, owner: Owner, stored: Option<Credential>, writes: seq<Write>,
    requests: seq<Request>, tasks: seq<Task>, log: seq<Event>, quiet: bool)

  datatype Label =
    | StartSync
    | StartPair
    | StartRevoke
    | Claimed(i: nat, cred: Credential)
    | ClaimFailed(i: nat)
    | Fetched(i: nat, result: Option<seq<Target>>)
    | Serve
    | ServeFails
    | Resume(i: nat)
    | Respawn

  function Boot(stored: Option<Credential>): State {
    State(0, map[], DETACHED, stored, [], [], [], [], false)
  }

  function SetTask(s: State, i: nat, t: Task): State
    requires i < |s.tasks|
  {
    s.(tasks := s.tasks[i := t])
  }

  function Issue(s: State, r: Request): State {
    s.(requests := s.requests + [r])
  }

  /** A fresh generation is given to a sync, which issues its first read. */
  function BeginSync(s: State, i: nat): State
    requires i < |s.tasks|
  {
    Issue(SetTask(s, i, Task(s.gen + 1, SyncRead, None)), GetCredential(i, s.gen + 1))
    .(gen := s.gen + 1, log := s.log + [SyncBegan(i, s.gen + 1)])
  }

  function AddTask(s: State, t: Task): State {
    s.(tasks := s.tasks + [t])
  }

  /** The guard and what follows it: the projection is replaced only when nothing newer has begun. */
  function Conclude(s: State, i: nat, seen: Option<Credential>, since: nat): State
    requires i < |s.tasks| && s.tasks[i].phase.SyncCheck?
  {
    var t := s.tasks[i];
    var ended := SetTask(s, i, t.(phase := Ended, mail := None));
    var began := t.phase.began;
    if t.gen == s.gen && Fingerprint(seen) == Fingerprint(began) then
      var targets := if began.Some? && t.phase.result.Some? then t.phase.result.value else [];
      var account := if began.Some? then Some(began.value.account) else None;
      ended.(index := ByVariant(targets), owner := Owner(t.gen, account),
             log := s.log + [Installed(i, began, seen, since, targets)])
    else ended
  }

  /** A handler acts on the storage reply it was waiting for. */
  function Resumed(s: State, i: nat): Option<State>
    requires i < |s.tasks|
  {
    var t := s.tasks[i];
    match t.mail
    case None => None
    case Some(reply) =>
      match t.phase
      case SyncRead =>
        if !reply.Read? then None
        else if reply.cred.None? then
          Some(Issue(SetTask(s, i, t.(phase := SyncCheck(None, None), mail := None)), GetCredential(i, t.gen)))
        else Some(SetTask(s, i, t.(phase := SyncFetch(reply.cred.value), mail := None)))
      case SyncCheck(_, _) => if !reply.Read? then None else Some(Conclude(s, i, reply.cred, reply.since))
      case PairWrite =>
        Some(Issue(SetTask(s, i, t.(phase := PairReady, mail := None)), SetCapability(i))
             .(gen := s.gen + 1, log := s.log + [PairBumped(i)]))
      case PairReady => Some(BeginSync(s, i))
      case RevokeRemove => Some(Issue(SetTask(s, i, t.(phase := RevokeMark, mail := None)), SetCapability(i)))
      case RevokeMark => Some(SetTask(s, i, t.(phase := Ended, mail := None)))
      case _ => None
  }

  function Written(stored: Option<Credential>, r: Request): Option<Credential> {
    match r
    case SetCredential(_, cred) => Some(cred)
    case RemoveCredential(_) => None
    case _ => stored
  }

  predicate WritesCredential(r: Request) {
    r.SetCredential? || r.RemoveCredential?
  }

  /** The reply reaches the handler that awaits it, if that is still alive. */
  function Deliver(s: State, r: Request, reply: Reply): State {
    if r.task < |s.tasks| && !s.tasks[r.task].phase.Ended? && (r.GetCredential? ==> s.tasks[r.task].gen == r.gen)
    then SetTask(s, r.task, s.tasks[r.task].(mail := Some(reply))) else s
  }

  /** Storage serves the request issued longest ago. */
  function Served(s: State): State
    requires s.requests != []
  {
    var r := s.requests[0];
    Deliver(s.(requests := s.requests[1..], stored := Written(s.stored, r),
               writes := if WritesCredential(r) then s.writes + [Write(r.task, Written(s.stored, r))] else s.writes), r,
            if r.GetCredential? then Read(s.stored, |s.writes|) else Done)
  }

  /** The request fails: nothing is written and its handler stops. */
  function Failed(s: State): State
    requires s.requests != []
  {
    var r := s.requests[0];
    var s' := s.(requests := s.requests[1..]);
    if r.task < |s.tasks| then SetTask(s', r.task, s.tasks[r.task].(phase := Ended, mail := None)) else s'
  }

  function Kill(tasks: seq<Task>): (dead: seq<Task>)
    ensures |dead| == |tasks| && forall i :: 0 <= i < |dead| ==> dead[i].phase == Ended
  {
    if tasks == [] then [] else Kill(Init(tasks)) + [Last(tasks).(phase := Ended, mail := None)]
  }

  /** Writes a dead worker issued may still be served; nobody waits for its reads. */
  function Orphaned(requests: seq<Request>): seq<Request> {
    if requests == [] then []
    else (if requests[0].GetCredential? then [] else [requests[0]]) + Orphaned(requests[1..])
  }

  /** One step, or None when it is not possible now. */
  function Step(s: State, l: Label): Option<State> {
    match l
    case StartSync => Some(BeginSync(AddTask(s, Task(0, Ended, None)), |s.tasks|))
    case StartPair => Some(AddTask(s, Task(0, PairClaim, None)))
    case StartRevoke =>
      Some(Issue(AddTask(s, Task(0, RevokeRemove, None)), RemoveCredential(|s.tasks|))
           .(gen := s.gen + 1, index := map[], owner := Owner(s.gen + 1, None),
             log := s.log + [Revoked], quiet := true))
    case Claimed(i, cred) =>
      if i < |s.tasks| && s.tasks[i].phase.PairClaim?
      then Some(Issue(SetTask(s, i, s.tasks[i].(phase := PairWrite)), SetCredential(i, cred)).(quiet := false))
      else None
    case ClaimFailed(i) =>
      if i < |s.tasks| && s.tasks[i].phase.PairClaim?
      then Some(SetTask(s, i, s.tasks[i].(phase := Ended)))
      else None
    case Fetched(i, result) =>
      if i < |s.tasks| && s.tasks[i].phase.SyncFetch?
      then Some(Issue(SetTask(s, i, s.tasks[i].(phase := SyncCheck(Some(s.tasks[i].phase.cred), result))),
                      GetCredential(i, s.tasks[i].gen)))
      else None
    case Serve => if s.requests == [] then None else Some(Served(s))
    case ServeFails => if s.requests == [] then None else Some(Failed(s))
    case Resume(i) => if i < |s.tasks| then Resumed(s, i) else None
    case Respawn => Some(s.(gen := 0, index := map[], owner := DETACHED, tasks := Kill(s.tasks),
                            requests := Orphaned(s.requests), log := []))
  }

  function Exec(stored: Option<Credential>, run: seq<Label>): Option<State> {
    if run == [] then Some(Boot(stored))
    else match Exec(stored, Init(run))
      case None => None
      case Some(s) => Step(s, Last(run))
  }

  // ---- generations ---------------------------------------------------------------------

  predicate InSync(p: Phase) {
    p.SyncRead? || p.SyncFetch? || p.SyncCheck?
  }

  /** Events that make every earlier sync stale. */
  predicate Bump(e: Event) {
    e.SyncBegan? || e.PairBumped? || e.Revoked?
  }

  function Bumps(log: seq<Event>): nat {
    if log == [] then 0 else Bumps(Init(log)) + if Bump(Last(log)) then 1 else 0
  }

  /** The live sync of task `i` began at generation `gen`, and the log says when. */
  predicate BeganIn(log: seq<Event>, i: nat, gen: nat) {
    exists k :: 0 <= k < |log| && log[k] == SyncBegan(i, gen) && Bumps(log[..k + 1]) == gen
  }

  /** Task `i`, if it is in a sync, was given a past generation, other than the projection owner's. */
  predicate SyncGen(gen: nat, ownerGen: nat, log: seq<Event>, t: Task, i: nat) {
    InSync(t.phase) ==> 0 < t.gen <= gen && t.gen != ownerGen && BeganIn(log, i, t.gen)
  }

  predicate GensDiffer(a: Task, b: Task) {
    InSync(a.phase) && InSync(b.phase) ==> a.gen != b.gen
  }

  /** The counter counts the bumps, live syncs were given distinct past values, the owner's is past. */
  predicate Gens(gen: nat, ownerGen: nat, log: seq<Event>, tasks: seq<Task>) {
    && gen == Bumps(log) && ownerGen <= gen
    && (forall i :: 0 <= i < |tasks| ==> SyncGen(gen, ownerGen, log, tasks[i], i))
    && (forall i, j :: 0 <= i < j < |tasks| ==> GensDiffer(tasks[i], tasks[j]))
  }

  predicate Generations(s: State) {
    Gens(s.gen, s.owner.generation, s.log, s.tasks)
  }

  lemma BumpsAppend(log: seq<Event>, e: Event)
    ensures Bumps(log + [e]) == Bumps(log) + if Bump(e) then 1 else 0
  {
    assert Init(log + [e]) == log;
  }

  lemma BeganStays(log: seq<Event>, e: Event, i: nat, gen: nat)
    requires BeganIn(log, i, gen)
    ensures BeganIn(log + [e], i, gen)
  {
    var k :| 0 <= k < |log| && log[k] == SyncBegan(i, gen) && Bumps(log[..k + 1]) == gen;
    assert (log + [e])[..k + 1] == log[..k + 1];
    assert (log + [e])[k] == log[k];
  }

  lemma BeganNow(log: seq<Event>, i: nat, gen: nat)
    requires Bumps(log) + 1 == gen
    ensures BeganIn(log + [SyncBegan(i, gen)], i, gen)
  {
    var log' := log + [SyncBegan(i, gen)];
    BumpsAppend(log, SyncBegan(i, gen));
    assert log'[..|log| + 1] == log';
    assert log'[|log|] == SyncBegan(i, gen);
  }

  lemma {:induction false} NoBumpBetween(log: seq<Event>, k: nat, j: nat)
    requires k <= j < |log| && Bumps(log[..k]) == Bumps(log)
    ensures !Bump(log[j])
  {
    assert log == Init(log) + [Last(log)];
    BumpsAppend(Init(log), Last(log));
    BumpsGrow(Init(log), k);
    assert Init(log)[..k] == log[..k];
    if j < |log| - 1 { NoBumpBetween(Init(log), k, j); }
  }

  lemma {:induction false} BumpsGrow(log: seq<Event>, k: nat)
    requires k <= |log|
    ensures Bumps(log[..k]) <= Bumps(log)
  {
    if k < |log| {
      BumpsGrow(Init(log), k);
      assert Init(log)[..k] == log[..k];
    } else {
      assert log[..k] == log;
    }
  }

  /** Nothing that makes a sync stale lies between its beginning and event `n`. */
  predicate FreshAt(log: seq<Event>, i: nat, n: nat)
    requires n <= |log|
  {
    exists k :: 0 <= k < n && log[k].SyncBegan? && log[k].task == i && forall j :: k < j < n ==> !Bump(log[j])
  }

  /** Every installation in the log passed both halves of the guard. */
  ghost predicate InstallsAreFresh(log: seq<Event>) {
    forall n :: 0 <= n < |log| && log[n].Installed? ==>
      FreshAt(log, log[n].task, n) && Fingerprint(log[n].began) == Fingerprint(log[n].seen)
  }

  lemma CurrentIsFresh(s: State, i: nat)
    requires Generations(s) && i < |s.tasks| && InSync(s.tasks[i].phase) && s.tasks[i].gen == s.gen
    ensures FreshAt(s.log, i, |s.log|)
  {
    assert SyncGen(s.gen, s.owner.generation, s.log, s.tasks[i], i);
    var k :| 0 <= k < |s.log| && s.log[k] == SyncBegan(i, s.gen) && Bumps(s.log[..k + 1]) == s.gen;
    forall j | k < j < |s.log| ensures !Bump(s.log[j]) { NoBumpBetween(s.log, k + 1, j); }
  }

  lemma InstallsAppend(log: seq<Event>, e: Event)
    requires InstallsAreFresh(log)
    requires e.Installed? ==> FreshAt(log, e.task, |log|) && Fingerprint(e.began) == Fingerprint(e.seen)
    ensures InstallsAreFresh(log + [e])
  {
    var log' := log + [e];
    forall n | 0 <= n < |log'| && log'[n].Installed?
      ensures FreshAt(log', log'[n].task, n) && Fingerprint(log'[n].began) == Fingerprint(log'[n].seen)
    {
      var i := log'[n].task;
      var k :| 0 <= k < n && log[k].SyncBegan? && log[k].task == i && forall j :: k < j < n ==> !Bump(log[j]);
      assert log'[k] == log[k];
      assert forall j :: k < j < n ==> log'[j] == log[j];
    }
  }

  // ---- every step keeps the generations right ------------------------------------------

  /** A task moves on: it is in a sync afterwards only if it already was in that sync. */
  lemma MoveKeepsGens(gen: nat, og: nat, log: seq<Event>, tasks: seq<Task>, i: nat, t: Task)
    requires Gens(gen, og, log, tasks) && i < |tasks|
    requires InSync(t.phase) ==> InSync(tasks[i].phase) && t.gen == tasks[i].gen
    ensures Gens(gen, og, log, tasks[i := t])
  {
    var tasks' := tasks[i := t];
    assert SyncGen(gen, og, log, tasks[i], i);
    forall j, k | 0 <= j < k < |tasks'| ensures GensDiffer(tasks'[j], tasks'[k]) {
      assert GensDiffer(tasks[j], tasks[k]);
    }
  }

  lemma AddKeepsGens(gen: nat, og: nat, log: seq<Event>, tasks: seq<Task>, t: Task)
    requires Gens(gen, og, log, tasks) && !InSync(t.phase)
    ensures Gens(gen, og, log, tasks + [t])
  {
    var tasks' := tasks + [t];
    forall j, k | 0 <= j < k < |tasks'| ensures GensDiffer(tasks'[j], tasks'[k]) {
      if k < |tasks| { assert GensDiffer(tasks[j], tasks[k]); }
    }
  }

  /** A new generation that no task holds: the earlier syncs stay as they were, and are stale. */
  lemma BumpKeepsGens(gen: nat, og: nat, log: seq<Event>, tasks: seq<Task>, e: Event, og': nat)
    requires Gens(gen, og, log, tasks) && Bump(e) && (og' == og || og' == gen + 1)
    ensures Gens(gen + 1, og', log + [e], tasks)
  {
    BumpsAppend(log, e);
    forall i | 0 <= i < |tasks| ensures SyncGen(gen + 1, og', log + [e], tasks[i], i) {
      assert SyncGen(gen, og, log, tasks[i], i);
      if InSync(tasks[i].phase) { BeganStays(log, e, i, tasks[i].gen); }
    }
  }

  /** A sync that begins gets a generation above every other. */
  lemma BeginKeepsGens(gen: nat, og: nat, log: seq<Event>, tasks: seq<Task>, i: nat)
    requires Gens(gen, og, log, tasks) && i < |tasks|
    ensures Gens(gen + 1, og, log + [SyncBegan(i, gen + 1)], tasks[i := Task(gen + 1, SyncRead, None)])
  {
    var e, t := SyncBegan(i, gen + 1), Task(gen + 1, SyncRead, None);
    BumpKeepsGens(gen, og, log, tasks, e, og);
    BeganNow(log, i, gen + 1);
    var tasks' := tasks[i := t];
    forall j | 0 <= j < |tasks'| ensures SyncGen(gen + 1, og, log + [e], tasks'[j], j) {
      assert SyncGen(gen + 1, og, log + [e], tasks[j], j);
    }
    forall j, k | 0 <= j < k < |tasks'| ensures GensDiffer(tasks'[j], tasks'[k]) {
      assert SyncGen(gen, og, log, tasks[j], j) && SyncGen(gen, og, log, tasks[k], k) && GensDiffer(tasks[j], tasks[k]);
    }
  }

  /** An installation stamps the generation of the sync that ends with it, which no other sync has. */
  lemma InstallKeepsGens(gen: nat, og: nat, log: seq<Event>, tasks: seq<Task>, i: nat, e: Event)
    requires Gens(gen, og, log, tasks) && i < |tasks| && InSync(tasks[i].phase) && !Bump(e)
    ensures Gens(gen, tasks[i].gen, log + [e], tasks[i := tasks[i].(phase := Ended, mail := None)])
  {
    var t := tasks[i].(phase := Ended, mail := None);
    var tasks' := tasks[i := t];
    BumpsAppend(log, e);
    assert SyncGen(gen, og, log, tasks[i], i);
    forall j | 0 <= j < |tasks'| ensures SyncGen(gen, tasks[i].gen, log + [e], tasks'[j], j) {
      assert SyncGen(gen, og, log, tasks[j], j);
      if j < i { assert GensDiffer(tasks[j], tasks[i]); } else if i < j { assert GensDiffer(tasks[i], tasks[j]); }
      if InSync(tasks'[j].phase) { BeganStays(log, e, j, tasks[j].gen); }
    }
    forall j, k | 0 <= j < k < |tasks'| ensures GensDiffer(tasks'[j], tasks'[k]) {
      assert GensDiffer(tasks[j], tasks[k]);
    }
  }

  lemma ConcludeKeepsGenerations(s: State, i: nat, seen: Option<Credential>, since: nat)
    requires Generations(s) && i < |s.tasks| && s.tasks[i].phase.SyncCheck?
    ensures Generations(Conclude(s, i, seen, since))
  {
    var s' := Conclude(s, i, seen, since);
    if s'.log == s.log {
      MoveKeepsGens(s.gen, s.owner.generation, s.log, s.tasks, i, s.tasks[i].(phase := Ended, mail := None));
    } else {
      InstallKeepsGens(s.gen, s.owner.generation, s.log, s.tasks, i, Last(s'.log));
    }
  }

  /** Except where a generation event happens, resuming only moves the handler on. */
  lemma ResumeMovesOn(s: State, i: nat)
    requires i < |s.tasks| && Resumed(s, i).Some?
    requires var p := s.tasks[i].phase; !p.SyncCheck? && !p.PairWrite? && !p.PairReady?
    ensures var s', t := Resumed(s, i).value, s.tasks[i];
      && s'.gen == s.gen && s'.log == s.log && s'.owner == s.owner
      && |s'.tasks| == |s.tasks| && s'.tasks == s.tasks[i := s'.tasks[i]]
      && (InSync(s'.tasks[i].phase) ==> InSync(t.phase) && s'.tasks[i].gen == t.gen)
  {
  }

  lemma PairWriteKeepsGenerations(s: State, i: nat)
    requires Generations(s) && i < |s.tasks| && s.tasks[i].phase.PairWrite? && Resumed(s, i).Some?
    ensures Generations(Resumed(s, i).value)
  {
    var t := s.tasks[i].(phase := PairReady, mail := None);
    MoveKeepsGens(s.gen, s.owner.generation, s.log, s.tasks, i, t);
    BumpKeepsGens(s.gen, s.owner.generation, s.log, s.tasks[i := t], PairBumped(i), s.owner.generation);
  }

  lemma BeginsAt(s: State, i: nat)
    requires i < |s.tasks|
    ensures var s' := BeginSync(s, i);
      && s'.tasks == s.tasks[i := Task(s.gen + 1, SyncRead, None)] && s'.gen == s.gen + 1
      && s'.log == s.log + [SyncBegan(i, s.gen + 1)] && s'.owner == s.owner
  {
  }

  lemma BeginKeepsGenerations(s: State, i: nat)
    requires Generations(s) && i < |s.tasks|
    ensures Generations(BeginSync(s, i))
  {
    BeginsAt(s, i);
    BeginKeepsGens(s.gen, s.owner.generation, s.log, s.tasks, i);
  }

  lemma PairReadyKeepsGenerations(s: State, i: nat)
    requires Generations(s) && i < |s.tasks| && s.tasks[i].phase.PairReady? && Resumed(s, i).Some?
    ensures Generations(Resumed(s, i).value)
  {
    BeginKeepsGenerations(s, i);
  }

  lemma CheckKeepsGenerations(s: State, i: nat)
    requires Generations(s) && i < |s.tasks| && s.tasks[i].phase.SyncCheck? && Resumed(s, i).Some?
    ensures Generations(Resumed(s, i).value)
  {
    ConcludeKeepsGenerations(s, i, s.tasks[i].mail.value.cred, s.tasks[i].mail.value.since);
  }

  lemma OthersKeepGenerations(s: State, i: nat)
    requires Generations(s) && i < |s.tasks| && Resumed(s, i).Some?
    requires var p := s.tasks[i].phase; !p.SyncCheck? && !p.PairWrite? && !p.PairReady?
    ensures Generations(Resumed(s, i).value)
  {
    ResumeMovesOn(s, i);
    MoveKeepsGens(s.gen, s.owner.generation, s.log, s.tasks, i, Resumed(s, i).value.tasks[i]);
  }

  lemma ResumeKeepsGenerations(s: State, i: nat)
    requires Generations(s) && i < |s.tasks| && Resumed(s, i).Some?
    ensures Generations(Resumed(s, i).value)
  {
    var p := s.tasks[i].phase;
    if p.SyncCheck? {
      CheckKeepsGenerations(s, i);
    } else if p.PairWrite? {
      PairWriteKeepsGenerations(s, i);
    } else if p.PairReady? {
      PairReadyKeepsGenerations(s, i);
    } else {
      OthersKeepGenerations(s, i);
    }
  }

  lemma StartSyncKeepsGenerations(s: State)
    requires Generations(s)
    ensures Generations(Step(s, StartSync).value)
  {
    var added := AddTask(s, Task(0, Ended, None));
    AddKeepsGens(s.gen, s.owner.generation, s.log, s.tasks, Task(0, Ended, None));
    BeginKeepsGenerations(added, |s.tasks|);
  }

  lemma StartRevokeKeepsGenerations(s: State)
    requires Generations(s)
    ensures Generations(Step(s, StartRevoke).value)
  {
    var added := s.tasks + [Task(0, RevokeRemove, None)];
    AddKeepsGens(s.gen, s.owner.generation, s.log, s.tasks, Task(0, RevokeRemove, None));
    BumpKeepsGens(s.gen, s.owner.generation, s.log, added, Revoked, s.gen + 1);
  }

  lemma StepKeepsGenerations(s: State, l: Label)
    requires Generations(s) && Step(s, l).Some?
    ensures Generations(Step(s, l).value)
  {
    var s' := Step(s, l).value;
    if l.StartSync? {
      StartSyncKeepsGenerations(s);
    } else if l.StartPair? {
      AddKeepsGens(s.gen, s.owner.generation, s.log, s.tasks, Task(0, PairClaim, None));
    } else if l.StartRevoke? {
      StartRevokeKeepsGenerations(s);
    } else if l.Resume? {
      ResumeKeepsGenerations(s, l.i);
    } else if !l.Respawn? {
      var i := if l.Serve? || l.ServeFails? then s.requests[0].task else l.i;
      if s'.tasks != s.tasks { MoveKeepsGens(s.gen, s.owner.generation, s.log, s.tasks, i, s'.tasks[i]); }
    }
  }

  /** A step installs only what a sync that is still current brings, over an older projection. */
  lemma StepInstallsFresh(s: State, l: Label)
    requires Generations(s) && InstallsAreFresh(s.log) && Step(s, l).Some?
    ensures InstallsAreFresh(Step(s, l).value.log)
  {
    var s' := Step(s, l).value;
    if s'.log != s.log && s'.log != [] {
      if l.Resume? && s.tasks[l.i].phase.SyncCheck? {
        CurrentIsFresh(s, l.i);
      }
      InstallsAppend(s.log, Last(s'.log));
    }
  }

  lemma {:induction false} ExecKeepsGenerations(stored: Option<Credential>, run: seq<Label>)
    requires Exec(stored, run).Some?
    ensures Generations(Exec(stored, run).value) && InstallsAreFresh(Exec(stored, run).value.log)
  {
    if run != [] {
      ExecKeepsGenerations(stored, Init(run));
      StepKeepsGenerations(Exec(stored, Init(run)).value, Last(run));
      StepInstallsFresh(Exec(stored, Init(run)).value, Last(run));
    }
  }

  // ---- what the fingerprint tells apart -----------------------------------------------------

  /** No credential in either, or the same id and the same account; the secret may differ. */
  predicate Same(a: Option<Credential>, b: Option<Credential>) {
    a.Some? == b.Some? && (a.Some? ==> a.value.id == b.value.id && a.value.account == b.value.account)
  }

  /** The id has no blank in it. */
  predicate Plain(c: Option<Credential>) {
    c.Some? ==> ' ' !in c.value.id
  }

  /** The id of `b` is that of `a`, a blank and a rest that `a` has in front of its account. */
  predicate Shifted(a: Credential, b: Credential) {
    && |a.id| < |b.id| && b.id[..|a.id|] == a.id && b.id[|a.id|] == ' '
    && a.account == b.id[|a.id| + 1..] + " " + b.account
  }

  lemma ShiftIff(a: Credential, b: Credential)
    requires |a.id| < |b.id|
    ensures a.id + " " + a.account == b.id + " " + b.account <==> Shifted(a, b)
  {
    var x, y, n := a.id + " " + a.account, b.id + " " + b.account, |a.id|;
    assert x[n + 1..] == a.account && x[..n] == a.id && x[n] == ' ';
    assert y[n + 1..] == b.id[n + 1..] + " " + b.account && y[..n] == b.id[..n] && y[n] == b.id[n];
    assert x == x[..n] + [x[n]] + x[n + 1..] && y == y[..n] + [y[n]] + y[n + 1..];
  }

  lemma AlikeIff(a: Credential, b: Credential)
    requires |a.id| == |b.id|
    ensures a.id + " " + a.account == b.id + " " + b.account <==> a.id == b.id && a.account == b.account
  {
    var x, y, n := a.id + " " + a.account, b.id + " " + b.account, |a.id|;
    assert x[..n] == a.id && y[..n] == b.id && x[n + 1..] == a.account && y[n + 1..] == b.account;
  }

  /** Two credentials have one fingerprint exactly when id and account agree, or a blank in an id shifts the border. */
  lemma FingerprintIff(a: Credential, b: Credential)
    ensures Fingerprint(Some(a)) == Fingerprint(Some(b)) <==>
      Same(Some(a), Some(b)) || Shifted(a, b) || Shifted(b, a)
  {
    if |a.id| < |b.id| { ShiftIff(a, b); } else if |b.id| < |a.id| { ShiftIff(b, a); } else { AlikeIff(a, b); }
  }

  /** For ids without a blank the fingerprint tells id and account, no more and no less; and none is like none. */
  lemma FingerprintTells(a: Option<Credential>, b: Option<Credential>)
    ensures Same(a, b) ==> Fingerprint(a) == Fingerprint(b)
    ensures Plain(a) && Plain(b) ==> (Fingerprint(a) == Fingerprint(b) <==> Same(a, b))
  {
    if a.Some? && b.Some? { FingerprintIff(a.value, b.value); }
  }

  /** With a blank in an id it does not: two accounts, one fingerprint. */
  lemma BlankConfuses()
    ensures var a, b := Credential("", "x", "y z"), Credential("", "x y", "z");
      Fingerprint(Some(a)) == Fingerprint(Some(b)) && !Same(Some(a), Some(b))
  {
    FingerprintIff(Credential("", "x", "y z"), Credential("", "x y", "z"));
  }

  // ---- where credentials come from ------------------------------------------------------------

  predicate PlainLabel(l: Label) {
    l.Claimed? ==> Plain(Some(l.cred))
  }

  /** Every credential that enters the run has an id without a blank. */
  predicate PlainInputs(stored: Option<Credential>, run: seq<Label>) {
    Plain(stored) && forall i :: 0 <= i < |run| ==> PlainLabel(run[i])
  }

  predicate PlainTask(t: Task) {
    && (t.phase.SyncFetch? ==> Plain(Some(t.phase.cred)))
    && (t.phase.SyncCheck? ==> Plain(t.phase.began))
    && (t.mail.Some? && t.mail.value.Read? ==> Plain(t.mail.value.cred))
  }

  predicate PlainRequest(r: Request) {
    r.SetCredential? ==> Plain(Some(r.cred))
  }

  predicate PlainEvent(e: Event) {
    e.Installed? ==> Plain(e.began) && Plain(e.seen)
  }

  predicate PlainState(s: State) {
    && Plain(s.stored)
    && (forall i :: 0 <= i < |s.tasks| ==> PlainTask(s.tasks[i]))
    && (forall p :: 0 <= p < |s.requests| ==> PlainRequest(s.requests[p]))
    && (forall n :: 0 <= n < |s.log| ==> PlainEvent(s.log[n]))
  }

  lemma {:induction false} OrphansArePlain(requests: seq<Request>)
    requires forall p :: 0 <= p < |requests| ==> PlainRequest(requests[p])
    ensures forall p :: 0 <= p < |Orphaned(requests)| ==> PlainRequest(Orphaned(requests)[p])
  {
    if requests != [] {
      OrphansArePlain(requests[1..]);
      assert PlainRequest(requests[0]);
    }
  }

  lemma {:induction false} KilledArePlain(tasks: seq<Task>)
    ensures forall i :: 0 <= i < |Kill(tasks)| ==> PlainTask(Kill(tasks)[i])
  {
    if tasks != [] { KilledArePlain(Init(tasks)); }
  }

  lemma StorageKeepsPlain(s: State)
    requires PlainState(s) && s.requests != []
    ensures PlainState(Served(s)) && PlainState(Failed(s))
  {
    assert PlainRequest(s.requests[0]);
  }

  lemma ConcludeKeepsPlain(s: State, i: nat)
    requires PlainState(s) && i < |s.tasks| && s.tasks[i].phase.SyncCheck? && Resumed(s, i).Some?
    ensures PlainState(Resumed(s, i).value)
  {
    assert PlainTask(s.tasks[i]);
  }

  /** A handler that moves on, issues a request or none, and logs a bump or nothing. */
  lemma MoveIsPlain(s: State, i: nat, t: Task, rs: seq<Request>, es: seq<Event>, s': State)
    requires PlainState(s) && i < |s.tasks| && PlainTask(t)
    requires forall r :: r in rs ==> !r.SetCredential?
    requires forall e :: e in es ==> !e.Installed?
    requires s'.stored == s.stored && s'.tasks == s.tasks[i := t]
    requires s'.requests == s.requests + rs && s'.log == s.log + es
    ensures PlainState(s')
  {
  }

  /** Any other handler that moves on keeps a credential it was told, or none. */
  lemma MoveKeepsPlain(s: State, i: nat)
    requires PlainState(s) && i < |s.tasks| && !s.tasks[i].phase.SyncCheck? && Resumed(s, i).Some?
    ensures PlainState(Resumed(s, i).value)
  {
    var s', t := Resumed(s, i).value, Resumed(s, i).value.tasks[i];
    assert PlainTask(s.tasks[i]);
    var read := GetCredential(i, t.gen);
    match s.tasks[i].phase
    case SyncRead => MoveIsPlain(s, i, t, if t.phase.SyncCheck? then [read] else [], [], s');
    case PairWrite => MoveIsPlain(s, i, t, [SetCapability(i)], [PairBumped(i)], s');
    case PairReady => MoveIsPlain(s, i, t, [read], [SyncBegan(i, t.gen)], s');
    case RevokeRemove => MoveIsPlain(s, i, t, [SetCapability(i)], [], s');
    case _ => MoveIsPlain(s, i, t, [], [], s');
  }

  lemma ResumeKeepsPlain(s: State, i: nat)
    requires PlainState(s) && i < |s.tasks| && Resumed(s, i).Some?
    ensures PlainState(Resumed(s, i).value)
  {
    if s.tasks[i].phase.SyncCheck? { ConcludeKeepsPlain(s, i); } else { MoveKeepsPlain(s, i); }
  }

  lemma StepKeepsPlain(s: State, l: Label)
    requires PlainState(s) && PlainLabel(l) && Step(s, l).Some?
    ensures PlainState(Step(s, l).value)
  {
    match l
    case Serve => StorageKeepsPlain(s);
    case ServeFails => StorageKeepsPlain(s);
    case Resume(i) => ResumeKeepsPlain(s, i);
    case Respawn =>
      OrphansArePlain(s.requests);
      KilledArePlain(s.tasks);
    case Fetched(i, _) => assert PlainTask(s.tasks[i]);
    case _ =>
  }

  lemma {:induction false} ExecKeepsPlain(stored: Option<Credential>, run: seq<Label>)
    requires Exec(stored, run).Some? && PlainInputs(stored, run)
    ensures PlainState(Exec(stored, run).value)
  {
    if run != [] {
      assert forall i :: 0 <= i < |run| - 1 ==> Init(run)[i] == run[i];
      ExecKeepsPlain(stored, Init(run));
      StepKeepsPlain(Exec(stored, Init(run)).value, Last(run));
    }
  }

  // ---- main results: staleness ----------------------------------------------------------

  /**
    In every interleaving, a sync result is installed only when no newer sync, pairing
    bump or revoke began after its sync did, and only when the credential its last read
    returned has the fingerprint of the one it began with: the same id and the same account,
    or none in both, when ids have no blank.
   */
  lemma OnlyFreshResultsAreInstalled(stored: Option<Credential>, run: seq<Label>, n: nat)
    requires Exec(stored, run).Some?
    requires n < |Exec(stored, run).value.log| && Exec(stored, run).value.log[n].Installed?
    ensures var log := Exec(stored, run).value.log;
      && FreshAt(log, log[n].task, n) && Fingerprint(log[n].began) == Fingerprint(log[n].seen)
      && (PlainInputs(stored, run) ==> Same(log[n].began, log[n].seen))
  {
    ExecKeepsGenerations(stored, run);
    var e := Exec(stored, run).value.log[n];
    if PlainInputs(stored, run) {
      ExecKeepsPlain(stored, run);
      assert PlainEvent(e);
      FingerprintTells(e.began, e.seen);
    }
  }

  lemma ResumeOnlyGetsNewer(s: State, i: nat)
    requires Generations(s) && i < |s.tasks| && Resumed(s, i).Some?
    ensures var s' := Resumed(s, i).value;
      (s'.index == s.index && s'.owner == s.owner) || s'.owner.generation > s.owner.generation
  {
    assert SyncGen(s.gen, s.owner.generation, s.log, s.tasks[i], i);
  }

  lemma StepOnlyGetsNewer(s: State, l: Label)
    requires Generations(s) && Step(s, l).Some? && !l.Respawn?
    ensures var s' := Step(s, l).value;
      (s'.index == s.index && s'.owner == s.owner) || s'.owner.generation > s.owner.generation
  {
    if l.Resume? { ResumeOnlyGetsNewer(s, l.i); }
  }

  /** What a step does to the projection: nothing, or a strictly newer owner is stamped on it. */
  lemma ProjectionOnlyGetsNewer(stored: Option<Credential>, run: seq<Label>, l: Label)
    requires Exec(stored, run + [l]).Some? && !l.Respawn?
    ensures Exec(stored, run).Some?
    ensures var s, s' := Exec(stored, run).value, Exec(stored, run + [l]).value;
      (s'.index == s.index && s'.owner == s.owner) || s'.owner.generation > s.owner.generation
  {
    assert Init(run + [l]) == run && Last(run + [l]) == l;
    ExecKeepsGenerations(stored, run);
    StepOnlyGetsNewer(Exec(stored, run).value, l);
  }
}
