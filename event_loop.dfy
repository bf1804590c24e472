/** The event-handling closure of `App::run`: winit hands it one event at a
    time; it dispatches on the event (close, resize, redraw, anything else),
    and afterwards recreates the swapchain whenever the shared flag is set.

    For each event the GPU library's and the window's answers are bundled in
    `Replies`; only those the closure actually consults matter. */
module EventLoop {
  import opened GpuTypes
  import opened GraphicEngine

  /** winit's `ControlFlow`: the loop starts polling; the closure only ever
      switches it to `Exit`. */
  datatype ControlFlow = Poll | Exit

  /** The events the closure distinguishes; every other event is `OtherEvent`. */
  datatype Event = CloseRequested | Resized(size: Extent) | RedrawEventsCleared | OtherEvent

  /** What the outside world answers while one event is handled: the results
      of acquire and flush (used by `render`), the window's inner size and the
      result of `Swapchain::recreate` (used by `recreate_swapchain`). */
  datatype Replies = Replies(
    acquire: AcquireResult,
    flush: FlushResult,
    windowExtent: Extent,
    recreate: RecreateResult)

  /** The closure's captured state: the engine, the `recreate_swapchain` flag
      and the loop's control flow. */
  datatype AppState = AppState(engine: EngineState, recreate: bool, controlFlow: ControlFlow)

  /** The state after one event, and the frame it submitted for presentation, if any. */
  datatype StepResult = StepResult(app: AppState, presented: Option<Submission>)

  /** The library answers the acquired index within the swapchain's images,
      and the closure does not panic: no fatal acquire error when it renders,
      no fatal recreate error when it recreates. */
  predicate Survives(s: AppState, e: Event, r: Replies)
    requires ValidState(s.engine)
  {
    && (e.RedrawEventsCleared? ==> AcquireHandled(s.engine, r.acquire))
    && (Dispatch(s, e, r).app.recreate ==> RecreateHandled(r.recreate))
  }

  /** The `match event` part of the closure. */
  function Dispatch(s: AppState, e: Event, r: Replies): (d: StepResult)
    requires ValidState(s.engine)
    requires e.RedrawEventsCleared? ==> AcquireHandled(s.engine, r.acquire)
    ensures ValidState(d.app.engine)
    // a close request asks the loop to exit and touches nothing else
    ensures e.CloseRequested? ==>
              && d.app.engine == s.engine && d.app.recreate == s.recreate
              && d.app.controlFlow == Exit && d.presented.None?
    // a resize only raises the flag
    ensures e.Resized? ==> d.app == s.(recreate := true) && d.presented.None?
    // any other event changes nothing
    ensures e.OtherEvent? ==> d.app == s && d.presented.None?
    // a redraw keeps the control flow, the swapchain and its framebuffers, never
    // clears the flag, raises it exactly on render's out-of-date or suboptimal
    // answers, and submits the acquired image through its own framebuffer
    ensures e.RedrawEventsCleared? ==>
              && d.app.controlFlow == s.controlFlow
              && d.app.engine.swapchain == s.engine.swapchain
              && d.app.engine.framebuffers == s.engine.framebuffers
              && (d.app.recreate <==> s.recreate || RenderRaisesFlag(r.acquire, r.flush))
              && (d.presented.Some? <==> r.acquire.Acquired?)
              && (r.acquire.Acquired? ==>
                    d.presented == Some(Submission(s.engine.swapchain.id, r.acquire.imageIndex,
                                                   s.engine.framebuffers[r.acquire.imageIndex])))
  {
    match e
    case CloseRequested => StepResult(s.(controlFlow := Exit), None)
    case Resized(_) => StepResult(s.(recreate := true), None)
    case RedrawEventsCleared =>
      var f := RenderStep(s.engine, s.recreate, r.acquire, r.flush);
      StepResult(s.(engine := f.state, recreate := f.recreate), f.presented)
    case OtherEvent => StepResult(s, None)
  }

  /** The flag is set once the `match event` is done: it was pending, the
      window was resized, or `render` asked for a new swapchain. */
  predicate FlagRaised(s: AppState, e: Event, r: Replies) {
    || s.recreate
    || e.Resized?
    || (e.RedrawEventsCleared? && RenderRaisesFlag(r.acquire, r.flush))
  }

  /** One run of the closure: dispatch, then recreate if the flag is set. */
  function EventStep(s: AppState, e: Event, r: Replies): (t: StepResult)
    requires ValidState(s.engine) && Survives(s, e, r)
    ensures ValidState(t.app.engine)
    // the flag outlives an event exactly when it was raised and recreation
    // was refused for the window's extent
    ensures t.app.recreate <==> FlagRaised(s, e, r) && r.recreate.ImageExtentNotSupported?
    // only a close request touches the control flow, and it asks to exit
    ensures t.app.controlFlow == if e.CloseRequested? then Exit else s.controlFlow
    // the render pass is fixed for the engine's lifetime
    ensures t.app.engine.renderPass == s.engine.renderPass
    // once raised, the flag recreates the swapchain at the window's size, with
    // one framebuffer per new image, whatever the event was
    ensures FlagRaised(s, e, r) && r.recreate.Recreated? ==>
              && t.app.engine.swapchain.id == r.recreate.swapchain
              && t.app.engine.swapchain.createInfo == s.engine.swapchain.createInfo.(imageExtent := r.windowExtent)
              && t.app.engine.swapchain.images == r.recreate.images
              && t.app.engine.framebuffers == FramebuffersFor(r.recreate.images, s.engine.renderPass)
    // otherwise the swapchain and its framebuffers stay as they were
    ensures !(FlagRaised(s, e, r) && r.recreate.Recreated?) ==>
              && t.app.engine.swapchain == s.engine.swapchain
              && t.app.engine.framebuffers == s.engine.framebuffers
    // a resize whose extent is refused leaves the engine alone
    ensures e.Resized? && r.recreate.ImageExtentNotSupported? ==> t.app.engine == s.engine
    // with no pending recreation, closing and unrelated events leave the
    // engine and the flag alone
    ensures (e.CloseRequested? || e.OtherEvent?) && !s.recreate ==>
              t.app.engine == s.engine && !t.app.recreate && t.presented.None?
    ensures e.OtherEvent? && !s.recreate ==> t.app == s
    // a frame is submitted exactly on a redraw whose acquire succeeded, through
    // the framebuffer of the acquired image of the swapchain before the event
    ensures t.presented.Some? <==> e.RedrawEventsCleared? && r.acquire.Acquired?
    ensures e.RedrawEventsCleared? && r.acquire.Acquired? ==>
              t.presented == Some(Submission(s.engine.swapchain.id, r.acquire.imageIndex,
                                             s.engine.framebuffers[r.acquire.imageIndex]))
    // the in-flight future changes only on such a redraw, as the flush decides
    ensures t.app.engine.previousFrameEnd ==
              if e.RedrawEventsCleared? && r.acquire.Acquired? then
                (if r.flush.Flushed? then Some(Pending(r.flush.future)) else Some(Completed))
              else s.engine.previousFrameEnd
  {
    var d := Dispatch(s, e, r);
    if d.app.recreate then
      var o := RecreateStep(d.app.engine, d.app.recreate, r.windowExtent, r.recreate);
      StepResult(d.app.(engine := o.state, recreate := o.recreate), d.presented)
    else d
  }

  /** The closure never panics on any event of the sequence. */
  predicate RunSurvives(s: AppState, events: seq<Event>, replies: seq<Replies>)
    requires ValidState(s.engine) && |events| == |replies|
    decreases |events|
  {
    |events| == 0 ||
    (&& Survives(s, events[0], replies[0])
     && RunSurvives(EventStep(s, events[0], replies[0]).app, events[1..], replies[1..]))
  }

  datatype RunResult = RunResult(app: AppState, presented: seq<Submission>)

  function Presentations(p: Option<Submission>): seq<Submission> {
    if p.Some? then [p.value] else []
  }

  /** The closure applied to a sequence of events, collecting the frames submitted for presentation. */
  function Run(s: AppState, events: seq<Event>, replies: seq<Replies>): (r: RunResult)
    requires ValidState(s.engine) && |events| == |replies| && RunSurvives(s, events, replies)
    ensures ValidState(r.app.engine)
    decreases |events|
  {
    if |events| == 0 then RunResult(s, [])
    else
      var t := EventStep(s, events[0], replies[0]);
      var rest := Run(t.app, events[1..], replies[1..]);
      RunResult(rest.app, Presentations(t.presented) + rest.presented)
  }

  /** Once the control flow is `Exit`, no later event resets it. */
  lemma {:induction false} ExitIsFinal(s: AppState, events: seq<Event>, replies: seq<Replies>)
    requires ValidState(s.engine) && |events| == |replies| && RunSurvives(s, events, replies)
    requires s.controlFlow == Exit
    ensures Run(s, events, replies).app.controlFlow == Exit
    decreases |events|
  {
    if |events| > 0 {
      ExitIsFinal(EventStep(s, events[0], replies[0]).app, events[1..], replies[1..]);
    }
  }

  /** After any non-empty run the flag is set only if the last event's
      recreation was refused for its extent; a run of no events keeps it. */
  lemma {:induction false} PendingFlagMeansRefusedExtent(s: AppState, events: seq<Event>, replies: seq<Replies>)
    requires ValidState(s.engine) && |events| == |replies| && RunSurvives(s, events, replies)
    requires Run(s, events, replies).app.recreate
    ensures |events| == 0 ==> s.recreate
    ensures |events| > 0 ==> replies[|events| - 1].recreate.ImageExtentNotSupported?
    decreases |events|
  {
    if |events| == 1 {
      assert Run(s, events, replies).app == EventStep(s, events[0], replies[0]).app;
    } else if |events| > 1 {
      var t := EventStep(s, events[0], replies[0]);
      PendingFlagMeansRefusedExtent(t.app, events[1..], replies[1..]);
      assert replies[1..][|events| - 2] == replies[|events| - 1];
    }
  }

  /** A resize followed by a redraw: the swapchain is recreated once, at the
      window's size, and the frame drawn goes through the framebuffer of the
      NEW image it acquired, so nothing is drawn against stale framebuffers;
      if the library delivered that image at the requested size, the frame
      has the window's size. */
  lemma ResizeThenRedrawUsesNewImages(s: AppState, size: Extent, r1: Replies, r2: Replies)
    requires ValidState(s.engine)
    requires Survives(s, Resized(size), r1)
    requires Survives(EventStep(s, Resized(size), r1).app, RedrawEventsCleared, r2)
    requires r1.recreate.Recreated? && r2.acquire.Acquired?
    ensures var t1 := EventStep(s, Resized(size), r1);
            var t2 := EventStep(t1.app, RedrawEventsCleared, r2);
            var i := r2.acquire.imageIndex;
            && t1.app.engine.swapchain.createInfo.imageExtent == r1.windowExtent
            && i < |r1.recreate.images|
            && t2.presented ==
                 Some(Submission(r1.recreate.swapchain, i, Framebuffer(s.engine.renderPass, r1.recreate.images[i])))
            && (r1.recreate.images[i].extent == r1.windowExtent ==>
                  t2.presented.value.framebuffer.attachment.extent == r1.windowExtent)
  {
  }

  /** A redraw whose acquire and flush both succeed without asking for
      recreation, on an image of the engine's swapchain. */
  predicate SteadyFrame(st: EngineState, e: Event, r: Replies) {
    && e.RedrawEventsCleared?
    && r.acquire.Acquired? && !r.acquire.suboptimal && r.acquire.imageIndex < |st.framebuffers|
    && r.flush.Flushed?
  }

  /** With no resize and every acquire and flush succeeding, each redraw
      presents exactly one frame, against the unchanged swapchain and its
      framebuffers, the flag stays clear, and the in-flight future after the
      run is the one the last flush produced. */
  lemma {:induction false} SteadyRunPresentsEveryFrame(s: AppState, events: seq<Event>, replies: seq<Replies>)
    requires ValidState(s.engine) && |events| == |replies| && RunSurvives(s, events, replies)
    requires !s.recreate
    requires forall k :: 0 <= k < |events| ==> SteadyFrame(s.engine, events[k], replies[k])
    ensures var run := Run(s, events, replies);
            && |run.presented| == |events|
            && !run.app.recreate
            && run.app.engine.swapchain == s.engine.swapchain
            && run.app.engine.framebuffers == s.engine.framebuffers
            && (forall k :: 0 <= k < |events| ==>
                  && SteadyFrame(s.engine, events[k], replies[k])
                  && run.presented[k] == Submission(s.engine.swapchain.id, replies[k].acquire.imageIndex,
                                                    s.engine.framebuffers[replies[k].acquire.imageIndex]))
            && (|events| > 0 ==>
                  && SteadyFrame(s.engine, events[|events| - 1], replies[|events| - 1])
                  && run.app.engine.previousFrameEnd == Some(Pending(replies[|events| - 1].flush.future)))
    decreases |events|
  {
    if |events| > 0 {
      assert SteadyFrame(s.engine, events[0], replies[0]);
      var t := EventStep(s, events[0], replies[0]);
      var es, rs := events[1..], replies[1..];
      forall k | 0 <= k < |es|
        ensures SteadyFrame(t.app.engine, es[k], rs[k])
      {
        assert SteadyFrame(s.engine, events[k + 1], replies[k + 1]);
      }
      SteadyRunPresentsEveryFrame(t.app, es, rs);
      var rest := Run(t.app, es, rs);
      var run := Run(s, events, replies);
      assert run.presented == [t.presented.value] + rest.presented;
      forall k | 0 <= k < |events|
        ensures run.presented[k] == Submission(s.engine.swapchain.id, replies[k].acquire.imageIndex,
                                               s.engine.framebuffers[replies[k].acquire.imageIndex])
      {
        assert SteadyFrame(s.engine, events[k], replies[k]);
        if k > 0 {
          assert run.presented[k] == rest.presented[k - 1];
          assert rs[k - 1] == replies[k];
        }
      }
      if |events| > 1 {
        assert rs[|es| - 1] == replies[|events| - 1];
      }
    }
  }

  class App {
    const engine: Engine
    var recreateSwapchain: bool
    var controlFlow: ControlFlow

    function State(): AppState
      reads this, engine
    {
      AppState(engine.State(), recreateSwapchain, controlFlow)
    }

    /** `App::run` before the loop starts: the flag starts false. */
    constructor (engine: Engine)
      requires engine.Valid()
      ensures this.engine == engine && !recreateSwapchain && controlFlow == Poll
    {
      this.engine := engine;
      recreateSwapchain := false;
      controlFlow := Poll;
    }

    /** One invocation of the closure passed to `EventLoop::run`. */
    method HandleEvent(event: Event, replies: Replies)
      requires engine.Valid()
      requires Survives(State(), event, replies)
      modifies this, engine
      ensures engine.Valid()
      ensures var t := EventStep(old(State()), event, replies);
              && State() == t.app
              && engine.presented == old(engine.presented) + Presentations(t.presented)
    {
      match event {
        case CloseRequested =>
          controlFlow := Exit;
        case Resized(_) =>
          recreateSwapchain := true;
        case RedrawEventsCleared =>
          recreateSwapchain := engine.Render(recreateSwapchain, replies.acquire, replies.flush);
        case OtherEvent =>
      }
      if recreateSwapchain {
        recreateSwapchain := engine.RecreateSwapchain(recreateSwapchain, replies.windowExtent, replies.recreate);
      }
    }
  }
}
