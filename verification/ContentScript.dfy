/** The content script's own module state, changed step by step as its handlers run. */
module ContentScriptImpl {
  import opened Prelude
  import opened Navigation

  /** An abort controller: a fetch in flight carries one. */
  class AbortController {
    const task: nat
    var aborted: bool

    constructor (task: nat)
      ensures this.task == task && !aborted
    {
      this.task := task;
      aborted := false;
    }

    method Abort()
      modifies this
      ensures aborted
    {
      aborted := true;
    }
  }

  class ContentScript {
    var navGeneration: nat
    var lastCapturedPath: string
    var currentProduct: Option<Product>
    var inFlight: AbortController?
    var overlay: Option<Option<Product>>

    constructor ()
      ensures Shows(Boot(Path("", None)))
    {
      navGeneration, lastCapturedPath, currentProduct, inFlight, overlay := 0, "", None, null, None;
    }

    /** The module's variables are what the protocol state says they are. */
    ghost predicate Shows(t: Tab)
      reads this, inFlight
    {
      && navGeneration == t.gen && lastCapturedPath == t.lastCapturedPath
      && currentProduct == (match t.current case None => None case Some(p) => Some(p.product))
      && (if t.inFlight.None? then inFlight == null
          else inFlight != null && inFlight.task == t.inFlight.value && !inFlight.aborted)
      && overlay == (match t.overlay case None => None case Some(o) => Some(o.shown))
    }

    /** Drops everything tied to the page being left; its fetch is aborted, not merely forgotten. */
    method RetireContext(ghost t: Tab)
      requires Shows(t)
      modifies this, inFlight
      ensures Shows(Retired(t))
      ensures old(inFlight) != null ==> old(inFlight).aborted
    {
      navGeneration := navGeneration + 1;
      currentProduct := None;
      lastCapturedPath := "";
      if inFlight != null { inFlight.Abort(); }
      inFlight := null;
      overlay := None;
    }

    /** The entry point of every load and route change; says whether a capture goes on to its gate. */
    method HandleNavigation(location: Path, ghost t: Tab) returns (gating: bool)
      requires Shows(t) && t.location == location
      modifies this, inFlight
      ensures Shows(Navigated(t))
      ensures gating <==> location.productId.Some?
      ensures Last(Navigated(t).tasks).gen == navGeneration
      ensures gating <==> Last(Navigated(t).tasks).phase == AwaitCapability(location)
      ensures !gating ==> Last(Navigated(t).tasks).phase == Ended
    {
      RetireContext(t);
      gating := location.productId.Some?;
    }

    /** The gate has answered; says whether the product is to be fetched. */
    method GateAnswered(generation: nat, path: Path, ready: bool, ghost t: Tab, i: nat) returns (fetch: bool)
      requires Shows(t) && i < |t.tasks| && t.tasks[i] == Task(generation, AwaitCapability(path))
      modifies this
      ensures Shows(Gated(t, i, ready))
      ensures fetch <==> Gated(t, i, ready).tasks[i].phase == AwaitResponse(path)
      ensures fetch ==> inFlight != null && inFlight.task == i && fresh(inFlight)
    {
      fetch := false;
      if generation != navGeneration { return; }
      if !ready { return; }
      if path.text == lastCapturedPath { return; }
      lastCapturedPath := path.text;
      inFlight := new AbortController(i);
      fetch := true;
    }

    /** Runs when a fetch is over, however it ended. */
    method FetchOver(controller: AbortController, ghost t: Tab)
      requires Shows(t) && (inFlight == controller <==> t.inFlight == Some(controller.task))
      modifies this
      ensures Shows(Released(t, controller.task))
    {
      if inFlight == controller { inFlight := null; }
    }

    /** The body has been parsed, after its fetch was released; says whether a capture is sent. */
    method ProductParsed(generation: nat, path: Path, location: Path, parsed: Option<Product>, ghost t: Tab,
                         ghost i: nat)
      returns (sent: Option<Product>)
      requires i < |t.tasks| && t.tasks[i] == Task(generation, AwaitBody(path)) && t.location == location
      requires Shows(Released(t, i))
      modifies this
      ensures Shows(Parsed(t, i, parsed))
      ensures sent.Some? <==> generation == t.gen && parsed.Some? && location.text == path.text
      ensures sent.Some? ==> sent == parsed && currentProduct == sent && overlay.Some?
    {
      sent := None;
      if generation != navGeneration { return; }
      if parsed.None? { return; }
      if location.text != path.text { return; }
      currentProduct := parsed;
      sent := parsed;
      if overlay.None? { overlay := Some(None); }
    }
  }
}
