/** The presentation engine (`Graphicengine`): the swapchain, one framebuffer
    per swapchain image, the viewport and the in-flight GPU future, together
    with the per-frame driver (`render`) and the resize path
    (`recreate_swapchain`, `window_size_dependent_setup`).

    The GPU library's answers (acquire, flush, recreate) are parameters. Each
    operation is given twice: as a pure step on an `EngineState` value, which
    the lemmas about sequences of events use, and as a method of the class
    `Engine`, which updates the fields in place and is proved to perform
    exactly that step. */
module GraphicEngine {
  import opened GpuTypes

  /** The viewport rectangle. The library keeps it in `f32`; here the
      integers it is converted from. */
  datatype Viewport = Viewport(originX: int, originY: int, width: int, height: int, minDepth: int, maxDepth: int)

  /** The viewport `Graphicengine::new` starts from: origin (0, 0), no extent,
      depth range 0..1. */
  const InitialViewport := Viewport(0, 0, 0, 0, 0, 1)

  /** A frame that was recorded and queued for presentation: the swapchain it
      was presented to, the acquired image index and the framebuffer the
      clear pass ran against. */
  datatype Submission = Submission(swapchain: nat, imageIndex: nat, framebuffer: Framebuffer)

  /** The engine's fields that the frame driver and the resize path touch. */
  datatype EngineState = EngineState(
    renderPass: nat,
    swapchain: Swapchain,
    framebuffers: seq<Framebuffer>,
    viewport: Viewport,
    previousFrameEnd: Option<GpuFuture>)

  /** `images.iter().map(..).collect()`: one framebuffer per image, in image
      order, each bound to the shared render pass. */
  function FramebuffersFor(images: seq<Image>, renderPass: nat): (fbs: seq<Framebuffer>)
    ensures |fbs| == |images|
    ensures forall i :: 0 <= i < |images| ==> fbs[i].attachment == images[i] && fbs[i].renderPass == renderPass
  {
    if images == [] then []
    else [Framebuffer(renderPass, images[0])] + FramebuffersFor(images[1..], renderPass)
  }

  /** The engine's invariant between calls: the framebuffers are exactly those
      of the current swapchain's images, the viewport has the first image's
      dimensions and otherwise its initial origin and depth range, and an
      in-flight future is present. */
  predicate ValidState(st: EngineState) {
    && |st.swapchain.images| > 0
    && st.framebuffers == FramebuffersFor(st.swapchain.images, st.renderPass)
    && st.viewport == InitialViewport.(width := st.swapchain.images[0].extent.width,
                                       height := st.swapchain.images[0].extent.height)
    && st.previousFrameEnd.Some?
  }

  /** The acquire answers `render` survives: any error other than `OutOfDate`
      panics, and the acquired index selects a framebuffer. */
  predicate AcquireHandled(st: EngineState, acquire: AcquireResult) {
    && !acquire.AcquireFailed?
    && (acquire.Acquired? ==> acquire.imageIndex < |st.framebuffers|)
  }

  /** The recreate answers `recreate_swapchain` survives: any error other than
      `ImageExtentNotSupported` panics, and a new swapchain has an image. */
  predicate RecreateHandled(result: RecreateResult) {
    && !result.RecreateFailed?
    && (result.Recreated? ==> |result.images| > 0)
  }

  /** The answers that make `render` ask for a new swapchain: an out-of-date
      acquire, a suboptimal image, or an out-of-date flush of an acquired one. */
  predicate RenderRaisesFlag(acquire: AcquireResult, flush: FlushResult) {
    || acquire.AcquireOutOfDate?
    || (acquire.Acquired? && (acquire.suboptimal || flush.FlushOutOfDate?))
  }

  datatype FrameResult = FrameResult(state: EngineState, recreate: bool, presented: Option<Submission>)

  /** One call of `render` with the shared recreate flag `recreate`. */
  function RenderStep(st: EngineState, recreate: bool, acquire: AcquireResult, flush: FlushResult): (r: FrameResult)
    requires st.previousFrameEnd.Some?
    requires AcquireHandled(st, acquire)
    // only the in-flight future changes, and it is present afterwards
    ensures r.state == st.(previousFrameEnd := r.state.previousFrameEnd)
    ensures r.state.previousFrameEnd.Some?
    ensures ValidState(st) ==> ValidState(r.state)
    // the flag is never cleared; it is raised exactly by an out-of-date or
    // suboptimal acquire or an out-of-date flush
    ensures recreate ==> r.recreate
    ensures r.recreate <==> recreate || RenderRaisesFlag(acquire, flush)
    // an out-of-date acquire skips the frame and leaves the engine as it was
    ensures r.presented.None? <==> acquire.AcquireOutOfDate?
    ensures acquire.AcquireOutOfDate? ==> r.state == st
    // otherwise the acquired image is recorded against its own framebuffer and
    // submitted for presentation (whether the present succeeds is the flush's
    // answer)
    ensures acquire.Acquired? ==>
              r.presented == Some(Submission(st.swapchain.id, acquire.imageIndex, st.framebuffers[acquire.imageIndex]))
    // the flush decides the next in-flight future
    ensures acquire.Acquired? && flush.Flushed? ==> r.state.previousFrameEnd == Some(Pending(flush.future))
    ensures acquire.Acquired? && !flush.Flushed? ==> r.state.previousFrameEnd == Some(Completed)
  {
    match acquire
    case AcquireOutOfDate => FrameResult(st, true, None)
    case Acquired(imageIndex, suboptimal) =>
      var frame := Submission(st.swapchain.id, imageIndex, st.framebuffers[imageIndex]);
      match flush
      case Flushed(future) => FrameResult(st.(previousFrameEnd := Some(Pending(future))), recreate || suboptimal, Some(frame))
      case FlushOutOfDate => FrameResult(st.(previousFrameEnd := Some(Completed)), true, Some(frame))
      case FlushFailed => FrameResult(st.(previousFrameEnd := Some(Completed)), recreate || suboptimal, Some(frame))
  }

  datatype RecreateOutcome = RecreateOutcome(state: EngineState, recreate: bool)

  /** One call of `recreate_swapchain` with the shared flag `recreate`, the
      window's current inner size `windowExtent` and the library's answer. */
  function RecreateStep(st: EngineState, recreate: bool, windowExtent: Extent, result: RecreateResult): (r: RecreateOutcome)
    requires RecreateHandled(result)
    ensures ValidState(st) ==> ValidState(r.state)
    // an unsupported extent changes nothing, the flag included
    ensures result.ImageExtentNotSupported? ==> r == RecreateOutcome(st, recreate)
    // a new swapchain keeps the old configuration except for the extent, the
    // framebuffers follow its images one for one, and the flag is cleared
    ensures result.Recreated? ==>
              && !r.recreate
              && r.state.swapchain.id == result.swapchain
              && r.state.swapchain.createInfo == st.swapchain.createInfo.(imageExtent := windowExtent)
              && r.state.swapchain.images == result.images
              && |r.state.framebuffers| == |result.images|
              && (forall i :: 0 <= i < |result.images| ==>
                    r.state.framebuffers[i] == Framebuffer(st.renderPass, result.images[i]))
              && r.state.viewport == st.viewport.(width := result.images[0].extent.width,
                                                  height := result.images[0].extent.height)
              && r.state.renderPass == st.renderPass
              && r.state.previousFrameEnd == st.previousFrameEnd
  {
    match result
    case ImageExtentNotSupported => RecreateOutcome(st, recreate)
    case Recreated(id, images) =>
      var swapchain := Swapchain(id, st.swapchain.createInfo.(imageExtent := windowExtent), images);
      var dimensions := images[0].extent;
      RecreateOutcome(
        st.(swapchain := swapchain,
            framebuffers := FramebuffersFor(images, st.renderPass),
            viewport := st.viewport.(width := dimensions.width, height := dimensions.height)),
        false)
  }

  class Engine {
    const renderPass: nat
    var swapchain: Swapchain
    var framebuffers: seq<Framebuffer>
    var viewport: Viewport
    var previousFrameEnd: Option<GpuFuture>
    /** Every frame recorded and queued for presentation so far. */
    ghost var presented: seq<Submission>

    function State(): EngineState
      reads this
    {
      EngineState(renderPass, swapchain, framebuffers, viewport, previousFrameEnd)
    }

    ghost predicate Valid()
      reads this
    {
      ValidState(State())
    }

    /** The part of `Graphicengine::new` after the device and the first
        swapchain exist: fit the viewport and the framebuffers to the images
        and start with an already-completed future. */
    constructor (initialSwapchain: Swapchain, renderPass: nat)
      requires |initialSwapchain.images| > 0
      ensures Valid()
      ensures this.renderPass == renderPass && swapchain == initialSwapchain
      ensures previousFrameEnd == Some(Completed) && presented == []
    {
      var fbs, fitted := WindowSizeDependentSetup(initialSwapchain.images, renderPass, InitialViewport);
      this.renderPass := renderPass;
      swapchain := initialSwapchain;
      framebuffers := fbs;
      viewport := fitted;
      previousFrameEnd := Some(Completed);
      presented := [];
      assert fbs == FramebuffersFor(initialSwapchain.images, renderPass);
    }

    /** `window_size_dependent_setup`: the viewport passed by `&mut` comes back
        as `fitted`. */
    static method WindowSizeDependentSetup(images: seq<Image>, renderPass: nat, viewport: Viewport)
      returns (framebuffers: seq<Framebuffer>, fitted: Viewport)
      requires |images| > 0
      ensures |framebuffers| == |images|
      ensures forall i :: 0 <= i < |images| ==>
                framebuffers[i].attachment == images[i] && framebuffers[i].renderPass == renderPass
      ensures fitted == viewport.(width := images[0].extent.width, height := images[0].extent.height)
    {
      var dimensions := images[0].extent;
      fitted := viewport.(width := dimensions.width, height := dimensions.height);
      framebuffers := FramebuffersFor(images, renderPass);
    }

    /** `render`: the shared flag passed by `&mut` comes back as `recreate`. */
    method Render(recreateIn: bool, acquire: AcquireResult, flush: FlushResult) returns (recreate: bool)
      requires Valid()
      requires AcquireHandled(State(), acquire)
      modifies this
      ensures Valid()
      ensures var r := RenderStep(old(State()), recreateIn, acquire, flush);
              && State() == r.state
              && recreate == r.recreate
              && presented == old(presented) + (if r.presented.Some? then [r.presented.value] else [])
    {
      // `.as_mut().take()` empties a temporary borrow, not the field: the
      // field keeps its future while `cleanup_finished` reclaims resources.
      recreate := recreateIn;
      match acquire {
        case AcquireOutOfDate =>
          recreate := true;
          return;
        case Acquired(imageIndex, suboptimal) =>
          if suboptimal {
            recreate := true;
          }
          var framebuffer := framebuffers[imageIndex];
          presented := presented + [Submission(swapchain.id, imageIndex, framebuffer)];
          // the chain consumes the previous future
          previousFrameEnd := None;
          match flush {
            case Flushed(future) =>
              previousFrameEnd := Some(Pending(future));
            case FlushOutOfDate =>
              recreate := true;
              previousFrameEnd := Some(Completed);
            case FlushFailed =>
              previousFrameEnd := Some(Completed);
          }
      }
    }

    /** `recreate_swapchain`: `windowExtent` is the window's inner size at the
        call, `result` the answer of `Swapchain::recreate`. */
    method RecreateSwapchain(recreateIn: bool, windowExtent: Extent, result: RecreateResult) returns (recreate: bool)
      requires Valid()
      requires RecreateHandled(result)
      modifies this
      ensures Valid()
      ensures var r := RecreateStep(old(State()), recreateIn, windowExtent, result);
              State() == r.state && recreate == r.recreate
      ensures presented == old(presented)
    {
      recreate := recreateIn;
      match result {
        case ImageExtentNotSupported =>
          return;
        case Recreated(id, images) =>
          swapchain := Swapchain(id, swapchain.createInfo.(imageExtent := windowExtent), images);
          var fbs, fitted := WindowSizeDependentSetup(images, renderPass, viewport);
          framebuffers := fbs;
          viewport := fitted;
          recreate := false;
          assert framebuffers == FramebuffersFor(images, renderPass);
      }
    }
  }
}
