/** What the content script does on a product page when nothing goes wrong, and off one. */
module NavigationLive {
  import opened Prelude
  import opened Navigation

  /** What is left of a page change: the new generation, and nothing of the old page. */
  predicate Retired(u: Tab, t: Tab) {
    && u.gen == t.gen + 1 && u.location == t.location && u.log == t.log && |u.tasks| == |t.tasks| + 1
    && u.current == None && u.overlay == None && u.inFlight == None && u.lastCapturedPath == ""
  }

  /** The coroutine `n` of the newest generation is in this phase, and nothing is put up yet. */
  predicate Stands(u: Tab, n: nat, gen: nat, location: Path, p: Phase) {
    && n + 1 == |u.tasks| && u.gen == gen && u.location == location && u.tasks[n] == Task(gen, p)
    && u.current == None && u.overlay == None
  }

  lemma NavigationGates(t: Tab)
    requires t.location.productId.Some?
    ensures Retired(Navigated(t), t)
    ensures Stands(Navigated(t), |t.tasks|, t.gen + 1, t.location, AwaitCapability(t.location))
  {
  }

  lemma ReadyGateFetches(u: Tab, n: nat, gen: nat, path: Path)
    requires Stands(u, n, gen, path, AwaitCapability(path)) && u.lastCapturedPath == "" && path.text != ""
    ensures Step(u, Capability(n, true)).Some?
    ensures var v := Step(u, Capability(n, true)).value;
      && Stands(v, n, gen, path, AwaitResponse(path)) && v.inFlight == Some(n)
      && v.log == u.log + [GateReply(gen, true), ProductFetch(gen, path)]
  {
  }

  lemma ResponseIsRead(u: Tab, n: nat, gen: nat, path: Path)
    requires Stands(u, n, gen, path, AwaitResponse(path))
    ensures Step(u, Response(n, true)).Some?
    ensures var v := Step(u, Response(n, true)).value; Stands(v, n, gen, path, AwaitBody(path)) && v.log == u.log
  {
  }

  lemma BodyIsCaptured(u: Tab, n: nat, gen: nat, path: Path, product: Product)
    requires Stands(u, n, gen, path, AwaitBody(path))
    ensures Step(u, Body(n, Some(product))).Some?
    ensures var v := Step(u, Body(n, Some(product))).value;
      && v.gen == gen && v.current == Some(Published(gen, product)) && v.overlay == Some(Overlay(gen, None))
      && v.log == u.log + [CaptureSent(gen, path, path, product)]
      && |v.tasks| == n + 2 && v.tasks[n + 1] == Task(gen, AwaitState(product))
  {
  }

  lemma OverlayIsRendered(v: Tab, m: nat, gen: nat, product: Product, ready: bool)
    requires m < |v.tasks| && v.gen == gen && v.tasks[m] == Task(gen, AwaitState(product)) && v.overlay.Some?
    ensures Step(v, Capability(m, ready)).Some?
    ensures var w := Step(v, Capability(m, ready)).value;
      && w.overlay == Some(Overlay(v.overlay.value.gen, Some(product))) && w.current == v.current && w.log == v.log
      && Step(w, View(m)).Some?
      && var x := Step(w, View(m)).value;
      && x.overlay == w.overlay && x.current == v.current && x.log == v.log
  {
  }

  lemma ExecThen(location: Path, run: seq<Label>, l: Label)
    requires Exec(location, run).Some?
    ensures Exec(location, run + [l]) == Step(Exec(location, run).value, l)
  {
    assert Init(run + [l]) == run;
  }

  /** A navigation whose gate answers ready, and whose product is answered and parsed. */
  function Visit(run: seq<Label>, n: nat, product: Product): seq<Label> {
    run + [Navigate] + [Capability(n, true)] + [Response(n, true)] + [Body(n, Some(product))]
  }

  /**
    From every reachable state with the location on a product page: such a visit ends with that
    product at hand and captured, once, in the new generation on that page, and its overlay
    mounted; and the overlay comes to show it.
   */
  lemma ProductPageIsCaptured(location: Path, run: seq<Label>, product: Product, ready: bool)
    requires Exec(location, run).Some?
    requires var page := Exec(location, run).value.location; page.productId.Some? && page.text != ""
    ensures var t := Exec(location, run).value;
      var n, path, gen := |t.tasks|, t.location, t.gen + 1;
      var end := Exec(location, Visit(run, n, product));
      && end.Some? && end.value.gen == gen && end.value.current == Some(Published(gen, product))
      && end.value.log ==
           t.log + [GateReply(gen, true), ProductFetch(gen, path)] + [CaptureSent(gen, path, path, product)]
      && Step(end.value, Capability(n + 1, ready)).Some?
      && var shown := Step(end.value, Capability(n + 1, ready)).value;
      && shown.current == end.value.current && shown.log == end.value.log
      && shown.overlay == Some(Overlay(gen, Some(product)))
  {
    var t := Exec(location, run).value;
    var n, path, gen := |t.tasks|, t.location, t.gen + 1;
    NavigationGates(t);
    ExecThen(location, run, Navigate);
    ReadyGateFetches(Navigated(t), n, gen, path);
    ExecThen(location, run + [Navigate], Capability(n, true));
    var fetching := run + [Navigate] + [Capability(n, true)];
    ResponseIsRead(Exec(location, fetching).value, n, gen, path);
    ExecThen(location, fetching, Response(n, true));
    BodyIsCaptured(Exec(location, fetching + [Response(n, true)]).value, n, gen, path, product);
    ExecThen(location, fetching + [Response(n, true)], Body(n, Some(product)));
    OverlayIsRendered(Exec(location, Visit(run, n, product)).value, n + 1, gen, product, ready);
  }

  /** Off a product page a navigation only retires: no coroutine of the new generation does anything. */
  lemma OtherPageIsLeftAlone(location: Path, run: seq<Label>)
    requires Exec(location, run).Some? && Exec(location, run).value.location.productId.None?
    ensures var t := Exec(location, run).value;
      var u := Navigated(t);
      && Step(t, Navigate) == Some(u) && Retired(u, t)
      && forall i :: 0 <= i < |u.tasks| && u.tasks[i].gen == u.gen ==> u.tasks[i].phase == Ended
  {
    ExecKeepsInv(location, run);
    var t := Exec(location, run).value;
    forall i | 0 <= i < |t.tasks| ensures t.tasks[i].gen <= t.gen {
      assert TaskOk(t.gen, t.current, t.inFlight, t.aborted, t.tasks[i], i);
    }
  }

  /** Something that coroutine `i` awaits has come about. */
  predicate Wakes(l: Label, i: nat) {
    (l.Capability? || l.Response? || l.Body? || l.FetchFails? || l.View? || l.OnDemandDone?) && l.i == i
  }

  /** A coroutine of an older generation ends when it wakes, having put up and sent nothing. */
  lemma SupersededEnds(t: Tab, i: nat, l: Label)
    requires i < |t.tasks| && t.tasks[i].gen != t.gen && Wakes(l, i) && Step(t, l).Some?
    ensures var u := Step(t, l).value;
      && u.tasks == t.tasks[i := t.tasks[i].(phase := Ended)]
      && u.gen == t.gen && u.location == t.location && u.current == t.current && u.overlay == t.overlay
      && u.aborted == t.aborted && u.lastCapturedPath == t.lastCapturedPath
      && u.log == t.log + if t.tasks[i].phase.AwaitCapability? then [GateReply(t.tasks[i].gen, l.ready)] else []
  {
    assert t.log + [] == t.log;
  }

  /** An unload takes the overlay down and leaves the rest. */
  lemma UnloadUnmounts(t: Tab)
    ensures Step(t, Unload).Some? && Step(t, Unload).value.overlay == None
    ensures Step(t, Unload).value.(overlay := t.overlay) == t
  {
  }

  /** A gate that does not answer ready ends the capture: nothing is fetched. */
  lemma ClosedGateFetchesNothing(t: Tab, i: nat)
    requires i < |t.tasks| && t.tasks[i].phase.AwaitCapability?
    ensures Step(t, Capability(i, false)).Some?
    ensures var u := Step(t, Capability(i, false)).value;
      u.tasks[i].phase == Ended && u.log == t.log + [GateReply(t.tasks[i].gen, false)] && u.inFlight == t.inFlight
  {
  }
}
