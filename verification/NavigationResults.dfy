/** Main results about the content script: what is on screen and what was sent belongs to the right page. */
module NavigationResults {
  import opened Prelude
  import opened Navigation

  // ---- the log tells of every fetch and every capture in its place ---------------------------

  predicate InLog(log: seq<Event>, e: Event) {
    exists k :: 0 <= k < |log| && log[k] == e
  }

  /**
    A fetch is for a product page and comes right after its own gate answered ready; a capture
    comes after its own fetch, on the page of that fetch.
   */
  predicate Justified(log: seq<Event>, n: nat)
    requires n < |log|
  {
    match log[n]
    case GateReply(_, _) => true
    case ProductFetch(gen, path) => path.productId.Some? && n > 0 && log[n - 1] == GateReply(gen, true)
    case CaptureSent(gen, path, location, _) =>
      path.productId.Some? && location.text == path.text && InLog(log[..n], ProductFetch(gen, path))
  }

  predicate AllJustified(log: seq<Event>) {
    forall n :: 0 <= n < |log| ==> Justified(log, n)
  }

  /** A coroutine that captures was started on a product page; one that is fetching has its fetch on record. */
  predicate FetchRecorded(log: seq<Event>, task: Task) {
    && (Capturing(task.phase) ==> task.phase.path.productId.Some?)
    && (Fetching(task.phase) ==> InLog(log, ProductFetch(task.gen, task.phase.path)))
  }

  predicate AllRecorded(log: seq<Event>, tasks: seq<Task>) {
    forall i :: 0 <= i < |tasks| ==> FetchRecorded(log, tasks[i])
  }

  lemma RecordedStays(log: seq<Event>, tasks: seq<Task>, e: Event)
    requires AllRecorded(log, tasks)
    ensures AllRecorded(log + [e], tasks)
  {
    forall i | 0 <= i < |tasks| ensures FetchRecorded(log + [e], tasks[i]) {
      assert FetchRecorded(log, tasks[i]);
      if Fetching(tasks[i].phase) {
        var k :| 0 <= k < |log| && log[k] == ProductFetch(tasks[i].gen, tasks[i].phase.path);
        assert (log + [e])[k] == log[k];
      }
    }
  }

  lemma JustifiedAppend(log: seq<Event>, e: Event)
    requires AllJustified(log) && Justified(log + [e], |log|)
    ensures AllJustified(log + [e])
  {
    forall n | 0 <= n < |log| ensures Justified(log + [e], n) {
      assert Justified(log, n);
      assert (log + [e])[..n] == log[..n];
    }
  }

  predicate LogOk(t: Tab) {
    AllJustified(t.log) && AllRecorded(t.log, t.tasks)
  }

  lemma GateKeepsLog(t: Tab, i: nat, ready: bool)
    requires LogOk(t) && i < |t.tasks| && t.tasks[i].phase.AwaitCapability?
    ensures LogOk(Gated(t, i, ready))
  {
    var t' := Gated(t, i, ready);
    assert FetchRecorded(t.log, t.tasks[i]);
    var reply := GateReply(t.tasks[i].gen, ready);
    JustifiedAppend(t.log, reply);
    RecordedStays(t.log, t.tasks, reply);
    var noted := t.log + [reply];
    if t'.log != noted {
      var e := Last(t'.log);
      assert t'.log == noted + [e];
      JustifiedAppend(noted, e);
      RecordedStays(noted, t.tasks, e);
      assert t'.log[|noted|] == ProductFetch(t.tasks[i].gen, t.tasks[i].phase.path);
    }
    forall j | 0 <= j < |t'.tasks| ensures FetchRecorded(t'.log, t'.tasks[j]) {
      assert j != i ==> t'.tasks[j] == t.tasks[j];
    }
  }

  lemma ParseKeepsLog(t: Tab, i: nat, parsed: Option<Product>)
    requires LogOk(t) && i < |t.tasks| && t.tasks[i].phase.AwaitBody?
    ensures LogOk(Parsed(t, i, parsed))
  {
    var t' := Parsed(t, i, parsed);
    assert FetchRecorded(t.log, t.tasks[i]);
    if t'.log != t.log {
      var e := Last(t'.log);
      assert t'.log == t.log + [e] && t'.log[..|t.log|] == t.log;
      JustifiedAppend(t.log, e);
      RecordedStays(t.log, t.tasks, e);
    }
    forall j | 0 <= j < |t'.tasks| ensures FetchRecorded(t'.log, t'.tasks[j]) {
      if j < |t.tasks| && j != i { assert t'.tasks[j] == t.tasks[j]; } else { assert !Capturing(t'.tasks[j].phase); }
    }
  }

  lemma OthersKeepLog(t: Tab, l: Label)
    requires LogOk(t) && Step(t, l).Some? && !l.Body?
    requires l.Capability? ==> !t.tasks[l.i].phase.AwaitCapability?
    ensures LogOk(Step(t, l).value)
  {
    var t' := Step(t, l).value;
    forall j | 0 <= j < |t'.tasks| ensures FetchRecorded(t.log, t'.tasks[j]) {
      if j < |t.tasks| { assert FetchRecorded(t.log, t.tasks[j]); }
    }
  }

  lemma {:induction false} ExecKeepsLog(location: Path, run: seq<Label>)
    requires Exec(location, run).Some?
    ensures LogOk(Exec(location, run).value)
  {
    if run != [] {
      ExecKeepsLog(location, Init(run));
      var t, l := Exec(location, Init(run)).value, Last(run);
      if l.Body? { ParseKeepsLog(t, l.i, l.parsed); }
      else if l.Capability? && t.tasks[l.i].phase.AwaitCapability? { GateKeepsLog(t, l.i, l.ready); }
      else { OthersKeepLog(t, l); }
    }
  }

  // ---- what is put up has been captured ------------------------------------------------------------

  /** Event `k` is the capture that put up `p`. */
  predicate CapturedAt(log: seq<Event>, k: nat, p: Published) {
    k < |log| && log[k].CaptureSent? && log[k].gen == p.gen && log[k].product == p.product
  }

  ghost predicate Captured(log: seq<Event>, current: Option<Published>) {
    current.Some? ==> exists k: nat :: CapturedAt(log, k, current.value)
  }

  lemma CapturedStays(log: seq<Event>, later: seq<Event>, current: Option<Published>)
    requires log <= later && Captured(log, current)
    ensures Captured(later, current)
  {
    if current.Some? {
      var k: nat :| CapturedAt(log, k, current.value);
      assert CapturedAt(later, k, current.value);
    }
  }

  /** A step drops the product, leaves it, or puts one up with its capture. */
  lemma StepPutsUp(t: Tab, l: Label)
    requires Step(t, l).Some?
    ensures var t' := Step(t, l).value;
      && t.log <= t'.log
      && (t'.current.Some? && t'.current != t.current ==> CapturedAt(t'.log, |t.log|, t'.current.value))
  {
  }

  lemma StepKeepsCaptured(t: Tab, l: Label)
    requires Captured(t.log, t.current) && Step(t, l).Some?
    ensures Captured(Step(t, l).value.log, Step(t, l).value.current)
  {
    StepPutsUp(t, l);
    CapturedStays(t.log, Step(t, l).value.log, t.current);
  }

  lemma {:induction false} ExecKeepsCaptured(location: Path, run: seq<Label>)
    requires Exec(location, run).Some?
    ensures Captured(Exec(location, run).value.log, Exec(location, run).value.current)
  {
    if run != [] {
      ExecKeepsCaptured(location, Init(run));
      StepKeepsCaptured(Exec(location, Init(run)).value, Last(run));
    }
  }

  // ---- main results -----------------------------------------------------------------------------

  /**
    In every reachable state the current product, the overlay and the fetch in flight
    belong to the current generation, and the overlay shows no product but the current one.
   */
  lemma OnlyTheCurrentPageIsShown(location: Path, run: seq<Label>)
    requires Exec(location, run).Some?
    ensures var t := Exec(location, run).value;
      && (t.current.Some? ==> t.current.value.gen == t.gen)
      && (t.overlay.Some? ==> t.overlay.value.gen == t.gen)
      && (t.overlay.Some? && t.overlay.value.shown.Some? ==>
        t.current == Some(Published(t.gen, t.overlay.value.shown.value)))
      && (t.inFlight.Some? ==> t.inFlight.value < |t.tasks| && t.tasks[t.inFlight.value].gen == t.gen)
  {
    ExecKeepsInv(location, run);
  }

  /**
    Whatever product is at hand was sent in a capture of this generation, while the page was
    on the path of a fetch that this generation had made before.
   */
  lemma CurrentWasCapturedHere(location: Path, run: seq<Label>) returns (k: nat)
    requires Exec(location, run).Some? && Exec(location, run).value.current.Some?
    ensures var t := Exec(location, run).value;
      && k < |t.log| && t.log[k].CaptureSent?
      && t.log[k].gen == t.gen && t.log[k].product == t.current.value.product
      && t.log[k].location.text == t.log[k].path.text && InLog(t.log[..k], ProductFetch(t.gen, t.log[k].path))
  {
    var t := Exec(location, run).value;
    ExecKeepsInv(location, run);
    ExecKeepsCaptured(location, run);
    ExecKeepsLog(location, run);
    k :| CapturedAt(t.log, k, t.current.value);
    assert Justified(t.log, k);
  }

  /** Every unfinished fetch of an older page has been aborted, and every one of this page is in flight. */
  lemma OldFetchesAreAborted(location: Path, run: seq<Label>, i: nat)
    requires Exec(location, run).Some?
    requires i < |Exec(location, run).value.tasks| && Fetching(Exec(location, run).value.tasks[i].phase)
    ensures var t := Exec(location, run).value;
      if t.tasks[i].gen < t.gen then i in t.aborted else t.inFlight == Some(i)
  {
    ExecKeepsInv(location, run);
    var t := Exec(location, run).value;
    assert TaskOk(t.gen, t.current, t.inFlight, t.aborted, t.tasks[i], i);
  }

  /** Each generation makes at most one product fetch and sends at most one capture. */
  lemma OneFetchOneCapture(location: Path, run: seq<Label>, gen: nat)
    requires Exec(location, run).Some?
    ensures var log := Exec(location, run).value.log; Captures(log, gen) <= Fetches(log, gen) <= 1
  {
    ExecKeepsInv(location, run);
  }

  /**
    No fetch off a product page or before its own gate answered ready, and no capture away from the
    page it was fetched for.
   */
  lemma EverythingSentIsJustified(location: Path, run: seq<Label>, n: nat)
    requires Exec(location, run).Some? && n < |Exec(location, run).value.log|
    ensures Justified(Exec(location, run).value.log, n)
  {
    ExecKeepsLog(location, run);
  }

  /**
    The double-fire guard never decides anything: a capture of the current generation
    whose gate answers ready always fetches, since no mark of its own page can be set.
   */
  lemma DoubleFireGuardIsIdle(location: Path, run: seq<Label>, i: nat)
    requires Exec(location, run).Some?
    requires i < |Exec(location, run).value.tasks| && Exec(location, run).value.tasks[i].phase.AwaitCapability?
    requires Exec(location, run).value.tasks[i].phase.path.text != ""
    requires Exec(location, run).value.tasks[i].gen == Exec(location, run).value.gen
    ensures var t := Exec(location, run).value;
      Gated(t, i, true).tasks[i].phase == AwaitResponse(t.tasks[i].phase.path) && Gated(t, i, true).inFlight == Some(i)
  {
    ExecKeepsInv(location, run);
    var t := Exec(location, run).value;
    assert Logged(t.log, t.tasks[i]);
  }
}
