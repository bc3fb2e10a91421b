/**
  The content script across page changes: coroutines that outlive a page must not
  publish onto the next one.

  One step is one event-loop task: a navigation, a click, or a coroutine acting on
  one awaited reply. Replies may come in any order and arbitrarily late, also for
  fetches that were aborted.
 */
module Navigation {
  import opened Prelude

  /** A pathname and the product id it names, if it is a product page. */
  datatype Path = Path(text: string, productId: Option<nat>)

  datatype Product = Product(id: nat, data: string)

  datatype Phase =
    | AwaitCapability(path: Path)   // the gate before any fetch
    | AwaitResponse(path: Path)     // the product endpoint
    | AwaitBody(path: Path)         // its body
    | AwaitState(product: Product)  // an overlay refresh: the capability it renders with
    | AwaitView(product: Product)   // an overlay refresh: the view it renders
    | AwaitOnDemand                 // a clicked refresh: the on-demand capture
    | Ended

  /** A coroutine and the generation it was started under. */
  datatype Task = Task(gen: nat, phase: Phase)

  /** `gen` records, for reasoning only, the generation of the coroutine that put this up. */
  datatype Published = Published(gen: nat, product: Product)
  datatype Overlay = Overlay(gen: nat, shown: Option<Product>)

  datatype Event =
    | GateReply(gen: nat, ready: bool)
    | ProductFetch(gen: nat, path: Path)
    | CaptureSent(gen: nat, path: Path, location: Path, product: Product)

  datatype Tab = Tab(
    gen: nat, location: Path, lastCapturedPath: string, current: Option<Published>,
    inFlight: Option<nat>, aborted: set<nat>, overlay: Option<Overlay>, tasks: seq<Task>, log: seq<Event>)

  datatype Label =
    | UrlChanges(path: Path)
    | Navigate
    | Capability(i: nat, ready: bool)
    | Response(i: nat, ok: bool)
    | Body(i: nat, parsed: Option<Product>)
    | FetchFails(i: nat)
    | View(i: nat)
    | Click
    | OnDemandDone(i: nat)
    | SendFails(i: nat)
    | Unload

  /** The page as it is before the content script's first line runs. */
  function Boot(location: Path): Tab {
    Tab(0, location, "", None, None, {}, None, [], [])
  }

  function SetTask(t: Tab, i: nat, task: Task): Tab
    requires i < |t.tasks|
  {
    t.(tasks := t.tasks[i := task])
  }

  function EndTask(t: Tab, i: nat): Tab
    requires i < |t.tasks|
  {
    SetTask(t, i, t.tasks[i].(phase := Ended))
  }

  /** Everything tied to the page being left is dropped, and its fetch is aborted. */
  function Retired(t: Tab): Tab {
    t.(gen := t.gen + 1, current := None, lastCapturedPath := "",
       aborted := if t.inFlight.Some? then t.aborted + {t.inFlight.value} else t.aborted,
       inFlight := None, overlay := None)
  }

  /** Retire, then start capturing the page now at hand, up to the first await. */
  function Navigated(t: Tab): Tab {
    var r := Retired(t);
    r.(tasks := r.tasks + [Task(r.gen, if r.location.productId.Some? then AwaitCapability(r.location) else Ended)])
  }

  /** The fetch is no longer in flight, if it is this one. */
  function Released(t: Tab, i: nat): Tab {
    if t.inFlight == Some(i) then t.(inFlight := None) else t
  }

  /** A capture whose gate has answered. */
  function Gated(t: Tab, i: nat, ready: bool): Tab
    requires i < |t.tasks| && t.tasks[i].phase.AwaitCapability?
  {
    var task := t.tasks[i];
    var path := task.phase.path;
    var t := t.(log := t.log + [GateReply(task.gen, ready)]);
    if task.gen != t.gen || !ready || path.text == t.lastCapturedPath then EndTask(t, i)
    else
      SetTask(t, i, task.(phase := AwaitResponse(path)))
      .(lastCapturedPath := path.text, inFlight := Some(i), log := t.log + [ProductFetch(task.gen, path)])
  }

  /** An overlay refresh up to its first await: mounts unless one is mounted. */
  function RefreshStarted(t: Tab, i: nat): Tab
    requires i < |t.tasks|
  {
    if t.tasks[i].gen != t.gen || t.current.None? then EndTask(t, i)
    else
      SetTask(t, i, t.tasks[i].(phase := AwaitState(t.current.value.product)))
      .(overlay := if t.overlay.Some? then t.overlay else Some(Overlay(t.tasks[i].gen, None)))
  }

  /** A capture whose body has arrived: published only onto the page it started on. */
  function Parsed(t: Tab, i: nat, parsed: Option<Product>): Tab
    requires i < |t.tasks| && t.tasks[i].phase.AwaitBody?
  {
    var task := t.tasks[i];
    var ended := EndTask(Released(t, i), i);
    if task.gen != t.gen || parsed.None? || t.location.text != task.phase.path.text then ended
    else
      var published := ended.(current := Some(Published(task.gen, parsed.value)),
                              log := t.log + [CaptureSent(task.gen, task.phase.path, t.location, parsed.value)],
                              tasks := ended.tasks + [Task(task.gen, Ended)]);
      RefreshStarted(published, |t.tasks|)
  }

  /** Rendering goes to the mounted overlay; after an unload there is none. */
  function Rendered(t: Tab, product: Product): Tab {
    if t.overlay.Some? then t.(overlay := Some(t.overlay.value.(shown := Some(product)))) else t
  }

  function StateArrived(t: Tab, i: nat): Tab
    requires i < |t.tasks| && t.tasks[i].phase.AwaitState?
  {
    var task := t.tasks[i];
    if task.gen != t.gen then EndTask(t, i)
    else Rendered(SetTask(t, i, task.(phase := AwaitView(task.phase.product))), task.phase.product)
  }

  function ViewArrived(t: Tab, i: nat): Tab
    requires i < |t.tasks| && t.tasks[i].phase.AwaitView?
  {
    var task := t.tasks[i];
    if task.gen != t.gen then EndTask(t, i) else Rendered(EndTask(t, i), task.phase.product)
  }

  /** One step, or None when it is not possible now. */
  function Step(t: Tab, l: Label): Option<Tab> {
    match l
    case UrlChanges(path) => Some(t.(location := path))
    case Navigate => Some(Navigated(t))
    case Unload => Some(t.(overlay := None))
    case Click =>
      if t.overlay.Some? && t.overlay.value.shown.Some?
      then Some(t.(tasks := t.tasks + [Task(t.gen, AwaitOnDemand)])) else None
    case Capability(i, ready) =>
      if i >= |t.tasks| then None
      else if t.tasks[i].phase.AwaitCapability? then Some(Gated(t, i, ready))
      else if t.tasks[i].phase.AwaitState? then Some(StateArrived(t, i))
      else None
    case Response(i, ok) =>
      if i < |t.tasks| && t.tasks[i].phase.AwaitResponse?
      then Some(if t.tasks[i].gen != t.gen || !ok then EndTask(Released(t, i), i)
                else SetTask(t, i, t.tasks[i].(phase := AwaitBody(t.tasks[i].phase.path))))
      else None
    case Body(i, parsed) =>
      if i < |t.tasks| && t.tasks[i].phase.AwaitBody? then Some(Parsed(t, i, parsed)) else None
    case FetchFails(i) =>
      if i < |t.tasks| && (t.tasks[i].phase.AwaitResponse? || t.tasks[i].phase.AwaitBody?)
      then Some(EndTask(Released(t, i), i)) else None
    case View(i) =>
      if i < |t.tasks| && t.tasks[i].phase.AwaitView? then Some(ViewArrived(t, i)) else None
    case OnDemandDone(i) =>
      if i < |t.tasks| && t.tasks[i].phase.AwaitOnDemand? then Some(RefreshStarted(t, i)) else None
    case SendFails(i) =>
      if i < |t.tasks| && !Fetching(t.tasks[i].phase) then Some(EndTask(t, i)) else None
  }

  /** The script's first act is a navigation onto the page it was loaded into. */
  function Exec(location: Path, run: seq<Label>): Option<Tab> {
    if run == [] then Some(Navigated(Boot(location)))
    else match Exec(location, Init(run))
      case None => None
      case Some(t) => Step(t, Last(run))
  }

  // ---- the invariant ------------------------------------------------------------------------

  predicate Fetching(p: Phase) {
    p.AwaitResponse? || p.AwaitBody?
  }

  predicate Capturing(p: Phase) {
    p.AwaitCapability? || Fetching(p)
  }

  function Fetches(log: seq<Event>, gen: nat): nat {
    if log == [] then 0
    else Fetches(Init(log), gen) + if Last(log).ProductFetch? && Last(log).gen == gen then 1 else 0
  }

  function Captures(log: seq<Event>, gen: nat): nat {
    if log == [] then 0
    else Captures(Init(log), gen) + if Last(log).CaptureSent? && Last(log).gen == gen then 1 else 0
  }

  /** What holds of one coroutine, given the tab it lives in. */
  predicate TaskOk(gen: nat, current: Option<Published>, inFlight: Option<nat>, aborted: set<nat>, task: Task, i: nat) {
    && task.gen <= gen
    && (Fetching(task.phase) ==> if task.gen == gen then inFlight == Some(i) else i in aborted)
    && (Capturing(task.phase) && task.gen == gen ==> current == None)
    && ((task.phase.AwaitState? || task.phase.AwaitView?) && task.gen == gen ==>
      current == Some(Published(gen, task.phase.product)))
  }

  predicate TasksOk(gen: nat, current: Option<Published>, inFlight: Option<nat>, aborted: set<nat>, tasks: seq<Task>) {
    forall i :: 0 <= i < |tasks| ==> TaskOk(gen, current, inFlight, aborted, tasks[i], i)
  }

  predicate DifferentCaptures(a: Task, b: Task) {
    Capturing(a.phase) && Capturing(b.phase) ==> a.gen != b.gen
  }

  /** Each generation has at most one coroutine still capturing. */
  predicate OneCapture(tasks: seq<Task>) {
    forall i, j :: 0 <= i < j < |tasks| ==> DifferentCaptures(tasks[i], tasks[j])
  }

  /** How far a coroutine that is still capturing has got, as the log tells it. */
  predicate Logged(log: seq<Event>, task: Task) {
    && (task.phase.AwaitCapability? ==> Fetches(log, task.gen) == 0)
    && (Fetching(task.phase) ==> Fetches(log, task.gen) == 1)
    && (Capturing(task.phase) ==> Captures(log, task.gen) == 0)
  }

  predicate AllLogged(log: seq<Event>, tasks: seq<Task>) {
    forall i :: 0 <= i < |tasks| ==> Logged(log, tasks[i])
  }

  /** One fetch and one capture at most for each generation, none for one to come. */
  ghost predicate Budgeted(log: seq<Event>, gen: nat) {
    && (forall g: nat :: Captures(log, g) <= Fetches(log, g) <= 1)
    && (forall g: nat :: gen < g ==> Fetches(log, g) == 0)
  }

  /** What is put up belongs to the current generation, and the overlay shows the current product. */
  predicate Current(gen: nat, current: Option<Published>, inFlight: Option<nat>, overlay: Option<Overlay>,
                    tasks: seq<Task>) {
    && (current.Some? ==> current.value.gen == gen)
    && (overlay.Some? ==> overlay.value.gen == gen)
    && (overlay.Some? && overlay.value.shown.Some? ==> current == Some(Published(gen, overlay.value.shown.value)))
    && (inFlight.Some? ==>
      inFlight.value < |tasks| && tasks[inFlight.value].gen == gen && Fetching(tasks[inFlight.value].phase))
  }

  /** The captured-path mark is only ever set by a fetch of the current generation. */
  predicate Unmarked(log: seq<Event>, gen: nat, lastCapturedPath: string) {
    Fetches(log, gen) == 0 ==> lastCapturedPath == ""
  }

  ghost predicate Inv(t: Tab) {
    && Unmarked(t.log, t.gen, t.lastCapturedPath)
    && Current(t.gen, t.current, t.inFlight, t.overlay, t.tasks)
    && TasksOk(t.gen, t.current, t.inFlight, t.aborted, t.tasks)
    && OneCapture(t.tasks) && AllLogged(t.log, t.tasks) && Budgeted(t.log, t.gen)
  }

  // ---- pieces of the proof --------------------------------------------------------------------

  lemma CountAppend(log: seq<Event>, e: Event, gen: nat)
    ensures Fetches(log + [e], gen) == Fetches(log, gen) + if e.ProductFetch? && e.gen == gen then 1 else 0
    ensures Captures(log + [e], gen) == Captures(log, gen) + if e.CaptureSent? && e.gen == gen then 1 else 0
  {
    assert Init(log + [e]) == log;
  }

  lemma ChangeKeepsOneCapture(tasks: seq<Task>, i: nat, task: Task)
    requires OneCapture(tasks) && i < |tasks|
    requires Capturing(task.phase) ==> Capturing(tasks[i].phase) && task.gen == tasks[i].gen
    ensures OneCapture(tasks[i := task])
  {
    var tasks' := tasks[i := task];
    forall j, k | 0 <= j < k < |tasks'| ensures DifferentCaptures(tasks'[j], tasks'[k]) {
      assert DifferentCaptures(tasks[j], tasks[k]);
    }
  }

  lemma AddKeepsOneCapture(tasks: seq<Task>, task: Task)
    requires OneCapture(tasks)
    requires Capturing(task.phase) ==> forall i :: 0 <= i < |tasks| ==> tasks[i].gen < task.gen
    ensures OneCapture(tasks + [task])
  {
    var tasks' := tasks + [task];
    forall j, k | 0 <= j < k < |tasks'| ensures DifferentCaptures(tasks'[j], tasks'[k]) {
      if k < |tasks| { assert DifferentCaptures(tasks[j], tasks[k]); }
    }
  }

  /** Ending coroutine `i` and letting go of its fetch leaves everything else right. */
  lemma EndKeepsInv(t: Tab, i: nat)
    requires Inv(t) && i < |t.tasks|
    requires Fetching(t.tasks[i].phase) ==> t.tasks[i].gen != t.gen || t.inFlight == Some(i)
    ensures Inv(EndTask(Released(t, i), i))
  {
    ChangeKeepsOneCapture(t.tasks, i, t.tasks[i].(phase := Ended));
    var t' := EndTask(Released(t, i), i);
    forall j | 0 <= j < |t.tasks| ensures TaskOk(t'.gen, t'.current, t'.inFlight, t'.aborted, t'.tasks[j], j) {
      assert TaskOk(t.gen, t.current, t.inFlight, t.aborted, t.tasks[j], j);
    }
    forall j | 0 <= j < |t.tasks| ensures Logged(t.log, t'.tasks[j]) { assert Logged(t.log, t.tasks[j]); }
  }

  /** A coroutine that is not fetching holds nothing that would have to be let go. */
  lemma EndOtherKeepsInv(t: Tab, i: nat)
    requires Inv(t) && i < |t.tasks| && !Fetching(t.tasks[i].phase)
    ensures Inv(EndTask(t, i))
  {
    assert t.inFlight != Some(i);
    EndKeepsInv(t, i);
  }

  lemma RetireKeepsInv(t: Tab)
    requires Inv(t)
    ensures Inv(Retired(t))
    ensures forall i :: 0 <= i < |t.tasks| ==> t.tasks[i].gen < Retired(t).gen
  {
    var r := Retired(t);
    forall i | 0 <= i < |t.tasks|
      ensures t.tasks[i].gen < r.gen && TaskOk(r.gen, r.current, r.inFlight, r.aborted, r.tasks[i], i)
    {
      assert TaskOk(t.gen, t.current, t.inFlight, t.aborted, t.tasks[i], i);
    }
  }

  /** A coroutine of the current generation may be added when it is not fetching yet. */
  lemma AddKeepsInv(t: Tab, task: Task)
    requires Inv(t) && task.gen == t.gen && !Fetching(task.phase) && !task.phase.AwaitState? && !task.phase.AwaitView?
    requires task.phase.AwaitCapability? ==>
      t.current == None && Fetches(t.log, t.gen) == 0 && forall i :: 0 <= i < |t.tasks| ==> t.tasks[i].gen < t.gen
    ensures Inv(t.(tasks := t.tasks + [task]))
  {
    AddKeepsOneCapture(t.tasks, task);
    var t' := t.(tasks := t.tasks + [task]);
    forall j | 0 <= j < |t'.tasks| ensures TaskOk(t'.gen, t'.current, t'.inFlight, t'.aborted, t'.tasks[j], j) {
      if j < |t.tasks| { assert TaskOk(t.gen, t.current, t.inFlight, t.aborted, t.tasks[j], j); }
    }
    forall j | 0 <= j < |t'.tasks| ensures Logged(t.log, t'.tasks[j]) {
      if j < |t.tasks| {
        assert Logged(t.log, t.tasks[j]);
      } else {
        assert Captures(t.log, t.gen) <= Fetches(t.log, t.gen);
      }
    }
  }

  lemma NavigateKeepsInv(t: Tab)
    requires Inv(t)
    ensures Inv(Navigated(t))
  {
    var r := Retired(t);
    RetireKeepsInv(t);
    assert Fetches(t.log, r.gen) == 0;
    AddKeepsInv(r, Last(Navigated(t).tasks));
  }

  /** An entry that is neither a fetch nor a capture changes no count. */
  lemma NoteKeepsInv(t: Tab, e: Event)
    requires Inv(t) && e.GateReply?
    ensures Inv(t.(log := t.log + [e]))
    ensures forall g: nat ::
      Fetches(t.log + [e], g) == Fetches(t.log, g) && Captures(t.log + [e], g) == Captures(t.log, g)
  {
    forall g: nat
      ensures Fetches(t.log + [e], g) == Fetches(t.log, g) && Captures(t.log + [e], g) == Captures(t.log, g)
    {
      CountAppend(t.log, e, g);
    }
    forall j | 0 <= j < |t.tasks| ensures Logged(t.log + [e], t.tasks[j]) { assert Logged(t.log, t.tasks[j]); }
  }

  /** A fetch is begun by the current generation's own capture, which had not fetched before. */
  lemma FetchKeepsInv(t: Tab, i: nat)
    requires Inv(t) && i < |t.tasks| && t.tasks[i].phase.AwaitCapability? && t.tasks[i].gen == t.gen
    ensures var path := t.tasks[i].phase.path;
      Inv(SetTask(t, i, t.tasks[i].(phase := AwaitResponse(path)))
          .(lastCapturedPath := path.text, inFlight := Some(i), log := t.log + [ProductFetch(t.gen, path)]))
  {
    var path := t.tasks[i].phase.path;
    var e := ProductFetch(t.gen, path);
    var tasks' := t.tasks[i := t.tasks[i].(phase := AwaitResponse(path))];
    ChangeKeepsOneCapture(t.tasks, i, tasks'[i]);
    assert TaskOk(t.gen, t.current, t.inFlight, t.aborted, t.tasks[i], i) && Logged(t.log, t.tasks[i]);
    forall g: nat ensures Captures(t.log + [e], g) <= Fetches(t.log + [e], g) <= 1 { CountAppend(t.log, e, g); }
    forall g: nat | t.gen < g ensures Fetches(t.log + [e], g) == 0 { CountAppend(t.log, e, g); }
    forall j | 0 <= j < |tasks'|
      ensures TaskOk(t.gen, t.current, Some(i), t.aborted, tasks'[j], j) && Logged(t.log + [e], tasks'[j])
    {
      assert TaskOk(t.gen, t.current, t.inFlight, t.aborted, t.tasks[j], j) && Logged(t.log, t.tasks[j]);
      CountAppend(t.log, e, tasks'[j].gen);
      if j < i {
        assert DifferentCaptures(t.tasks[j], t.tasks[i]);
      } else if i < j {
        assert DifferentCaptures(t.tasks[i], t.tasks[j]);
      }
    }
  }

  lemma GateKeepsInv(t: Tab, i: nat, ready: bool)
    requires Inv(t) && i < |t.tasks| && t.tasks[i].phase.AwaitCapability?
    ensures Inv(Gated(t, i, ready))
  {
    var noted := t.(log := t.log + [GateReply(t.tasks[i].gen, ready)]);
    NoteKeepsInv(t, GateReply(t.tasks[i].gen, ready));
    EndOtherKeepsInv(noted, i);
    if t.tasks[i].gen == t.gen { FetchKeepsInv(noted, i); }
  }

  lemma BodyAwaitedKeepsInv(t: Tab, i: nat)
    requires Inv(t) && i < |t.tasks| && t.tasks[i].phase.AwaitResponse?
    ensures Inv(SetTask(t, i, t.tasks[i].(phase := AwaitBody(t.tasks[i].phase.path))))
  {
    var tasks' := t.tasks[i := t.tasks[i].(phase := AwaitBody(t.tasks[i].phase.path))];
    ChangeKeepsOneCapture(t.tasks, i, tasks'[i]);
    forall j | 0 <= j < |tasks'|
      ensures TaskOk(t.gen, t.current, t.inFlight, t.aborted, tasks'[j], j) && Logged(t.log, tasks'[j])
    {
      assert TaskOk(t.gen, t.current, t.inFlight, t.aborted, t.tasks[j], j) && Logged(t.log, t.tasks[j]);
    }
  }

  lemma RefreshKeepsInv(t: Tab, i: nat)
    requires Inv(t) && i < |t.tasks| && !Fetching(t.tasks[i].phase)
    ensures Inv(RefreshStarted(t, i))
  {
    var t' := RefreshStarted(t, i);
    EndOtherKeepsInv(t, i);
    ChangeKeepsOneCapture(t.tasks, i, t'.tasks[i]);
    forall j | 0 <= j < |t.tasks|
      ensures TaskOk(t'.gen, t'.current, t'.inFlight, t'.aborted, t'.tasks[j], j) && Logged(t'.log, t'.tasks[j])
    {
      assert TaskOk(t.gen, t.current, t.inFlight, t.aborted, t.tasks[j], j) && Logged(t.log, t.tasks[j]);
    }
  }

  /** Publishing is done once, by the one capture of the current generation. */
  lemma PublishKeepsInv(t: Tab, e: Event)
    requires Inv(t) && e.CaptureSent? && e.gen == t.gen && t.current == None
    requires Fetches(t.log, t.gen) == 1 && Captures(t.log, t.gen) == 0
    requires forall j :: 0 <= j < |t.tasks| && Capturing(t.tasks[j].phase) ==> t.tasks[j].gen != t.gen
    ensures Inv(t.(current := Some(Published(t.gen, e.product)), log := t.log + [e]))
  {
    var current := Some(Published(t.gen, e.product));
    forall g: nat ensures Captures(t.log + [e], g) <= Fetches(t.log + [e], g) <= 1 { CountAppend(t.log, e, g); }
    forall g: nat | t.gen < g ensures Fetches(t.log + [e], g) == 0 { CountAppend(t.log, e, g); }
    forall j | 0 <= j < |t.tasks|
      ensures TaskOk(t.gen, current, t.inFlight, t.aborted, t.tasks[j], j) && Logged(t.log + [e], t.tasks[j])
    {
      assert TaskOk(t.gen, t.current, t.inFlight, t.aborted, t.tasks[j], j) && Logged(t.log, t.tasks[j]);
      CountAppend(t.log, e, t.tasks[j].gen);
    }
  }

  lemma ParseKeepsInv(t: Tab, i: nat, parsed: Option<Product>)
    requires Inv(t) && i < |t.tasks| && t.tasks[i].phase.AwaitBody?
    ensures Inv(Parsed(t, i, parsed))
  {
    assert TaskOk(t.gen, t.current, t.inFlight, t.aborted, t.tasks[i], i) && Logged(t.log, t.tasks[i]);
    var ended := EndTask(Released(t, i), i);
    EndKeepsInv(t, i);
    if t.tasks[i].gen == t.gen && parsed.Some? && t.location.text == t.tasks[i].phase.path.text {
      forall j | 0 <= j < |ended.tasks| && Capturing(ended.tasks[j].phase) ensures ended.tasks[j].gen != t.gen {
        if j < i {
          assert DifferentCaptures(t.tasks[j], t.tasks[i]);
        } else if i < j {
          assert DifferentCaptures(t.tasks[i], t.tasks[j]);
        }
      }
      var e := CaptureSent(t.gen, t.tasks[i].phase.path, t.location, parsed.value);
      PublishKeepsInv(ended, e);
      var published := ended.(current := Some(Published(t.gen, parsed.value)), log := t.log + [e]);
      AddKeepsInv(published, Task(t.gen, Ended));
      RefreshKeepsInv(published.(tasks := published.tasks + [Task(t.gen, Ended)]), |t.tasks|);
    }
  }

  lemma RenderKeepsInv(t: Tab, product: Product)
    requires Inv(t) && t.current == Some(Published(t.gen, product))
    ensures Inv(Rendered(t, product))
  {
  }

  lemma StateKeepsInv(t: Tab, i: nat)
    requires Inv(t) && i < |t.tasks| && t.tasks[i].phase.AwaitState?
    ensures Inv(StateArrived(t, i))
  {
    var task := t.tasks[i].(phase := AwaitView(t.tasks[i].phase.product));
    var t' := SetTask(t, i, task);
    EndOtherKeepsInv(t, i);
    ChangeKeepsOneCapture(t.tasks, i, task);
    assert TaskOk(t.gen, t.current, t.inFlight, t.aborted, t.tasks[i], i);
    forall j | 0 <= j < |t.tasks|
      ensures TaskOk(t'.gen, t'.current, t'.inFlight, t'.aborted, t'.tasks[j], j) && Logged(t'.log, t'.tasks[j])
    {
      assert TaskOk(t.gen, t.current, t.inFlight, t.aborted, t.tasks[j], j) && Logged(t.log, t.tasks[j]);
    }
    if task.gen == t.gen { RenderKeepsInv(t', task.phase.product); }
  }

  lemma ViewKeepsInv(t: Tab, i: nat)
    requires Inv(t) && i < |t.tasks| && t.tasks[i].phase.AwaitView?
    ensures Inv(ViewArrived(t, i))
  {
    EndOtherKeepsInv(t, i);
    assert TaskOk(t.gen, t.current, t.inFlight, t.aborted, t.tasks[i], i);
    if t.tasks[i].gen == t.gen { RenderKeepsInv(EndTask(t, i), t.tasks[i].phase.product); }
  }

  lemma FetchEndsKeepsInv(t: Tab, i: nat)
    requires Inv(t) && i < |t.tasks| && Fetching(t.tasks[i].phase)
    ensures Inv(EndTask(Released(t, i), i))
  {
    assert TaskOk(t.gen, t.current, t.inFlight, t.aborted, t.tasks[i], i);
    EndKeepsInv(t, i);
  }

  lemma StepKeepsInv(t: Tab, l: Label)
    requires Inv(t) && Step(t, l).Some?
    ensures Inv(Step(t, l).value)
  {
    match l
    case UrlChanges(_) =>
    case Navigate => NavigateKeepsInv(t);
    case Unload =>
    case Click => AddKeepsInv(t, Task(t.gen, AwaitOnDemand));
    case Capability(i, ready) =>
      if t.tasks[i].phase.AwaitCapability? { GateKeepsInv(t, i, ready); } else { StateKeepsInv(t, i); }
    case Response(i, _) => FetchEndsKeepsInv(t, i); BodyAwaitedKeepsInv(t, i);
    case Body(i, parsed) => ParseKeepsInv(t, i, parsed);
    case FetchFails(i) => FetchEndsKeepsInv(t, i);
    case View(i) => ViewKeepsInv(t, i);
    case OnDemandDone(i) => RefreshKeepsInv(t, i);
    case SendFails(i) => EndOtherKeepsInv(t, i);
  }

  lemma {:induction false} ExecKeepsInv(location: Path, run: seq<Label>)
    requires Exec(location, run).Some?
    ensures Inv(Exec(location, run).value)
  {
    if run == [] {
      NavigateKeepsInv(Boot(location));
    } else {
      ExecKeepsInv(location, Init(run));
      StepKeepsInv(Exec(location, Init(run)).value, Last(run));
    }
  }
}
