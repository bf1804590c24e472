# Presentation engine of a Vulkan "clear the screen" program, in Dafny

The program opens a window, picks a GPU and runs a frame loop: it
acquires a swapchain image, clears it with a render pass, submits the work
and presents the image. When the window is resized, or when the GPU library
reports that the swapchain is out of date or suboptimal, it rebuilds the
swapchain. This project models the three pieces of decision logic in that
engine:

- **Device selection** (`DeviceSelection`, `device_selection.dfy`). This is
  `Graphicengine::get_best_compatible_physical_device`. It keeps the adapters
  that support the required device extensions. On each such adapter it picks
  the first queue family that supports graphics and can present to the
  window's surface. A `surface_support` error counts as "cannot present". It
  then takes the adapter whose device type ranks best (discrete 0, integrated 1,
  virtual 2, CPU 3, other 4, anything else 5). Rust's `min_by_key` keeps the
  first of several equal minima, so among equals the earliest adapter wins.
  The pipeline is written as functions that mirror the iterator stages.
  `BestChoice` is an independent definition of the right answer, and
  `SelectPhysicalDeviceCorrect` proves that the pipeline returns it.
- **Frame driver and swapchain recreation** (`GraphicEngine`,
  `graphic_engine.dfy`). This covers `render`, `recreate_swapchain` and
  `window_size_dependent_setup`. The class `Engine` holds the source's
  fields: the swapchain with its images, the framebuffers, the viewport and
  the in-flight future `previous_frame_end`. A ghost log records every frame
  that was recorded and queued for presentation. Each method is proved to
  perform a pure step (`RenderStep`, `RecreateStep`), and the properties are
  stated on those steps. The answers of `acquire_next_image`,
  `then_signal_fence_and_flush` and `Swapchain::recreate` are parameters.
- **Event loop** (`EventLoop`, `event_loop.dfy`). This is the closure that
  `App::run` passes to winit. It handles close, resize, redraw and every
  other event. After each event it recreates the swapchain if the shared flag
  is set. The class `App` holds the captured flag and the control flow.
  `EventStep` is the pure form of one event. `Run` folds `EventStep` over a
  sequence of events, and the lemmas about runs use it.

`GpuTypes` (`gpu_types.dfy`) holds the abstract stand-ins for the library's
values. Handles become numbers. An image carries its extent, and a
framebuffer carries the image it wraps, so a frame drawn at a stale size can
be seen in the model.

Three points of the code that the model follows exactly:
- Among adapters of equal rank, the first one in enumeration order wins.
- After a resize event, recreation does not wait for the next frame. It runs
  at the end of the same closure call, before the next redraw event.
- The reclaim step at the start of `render` (`.as_mut().take()`) takes from
  a temporary borrow. The field `previous_frame_end` keeps its future. So an
  out-of-date acquire leaves the in-flight future as it was.

## Model

| member | source | states |
|---|---|---|
| DeviceSelection.FirstDrawingFamily | src/graphic_engine.rs:223-235 | returns the lowest index whose family has the graphics flag and a surface-support answer of yes (an error counts as no); returns none exactly when no family qualifies |
| DeviceSelection.CandidatesFrom | src/graphic_engine.rs:218-236 | every pair that survives `filter` and `filter_map` is an eligible adapter with its first qualifying family, in strictly increasing enumeration order |
| DeviceSelection.CandidateAt | src/graphic_engine.rs:218-236 | an adapter that supports the extensions and has a qualifying family yields exactly one pair, carrying its own position |
| DeviceSelection.CandidatesComplete | src/graphic_engine.rs:218-236 | no adapter that supports the extensions and has a qualifying family is dropped by the filters |
| DeviceSelection.MinByKeyIsFirstMinimum | src/graphic_engine.rs:237-247 | `min_by_key` is empty exactly on empty input; otherwise it returns an element of least rank that every earlier element ranks strictly worse than |
| DeviceSelection.SelectPhysicalDeviceCorrect | src/graphic_engine.rs:210-249 | selection fails if and only if no adapter is eligible; otherwise it returns exactly the unique `BestChoice`, which supports every required extension and uses the lowest qualifying queue family |
| DeviceSelection.BestChoiceUnique | src/graphic_engine.rs:237-247 | least rank plus first-among-equals determines the choice uniquely |
| DeviceSelection.PrefersDiscreteGpu | src/graphic_engine.rs:239-241 | if any eligible adapter is a discrete GPU, a discrete GPU is selected (so of an integrated and a discrete candidate the discrete one wins) |
| DeviceSelection.SelectedSupportsSwapchain | src/graphic_engine.rs:42-51 | the adapter chosen with the engine's extension set supports `khr_swapchain` |
| GraphicEngine.FramebuffersFor | src/graphic_engine.rs:316-329 | one framebuffer per image, in image order, each wrapping its image and bound to the render pass |
| GraphicEngine.RenderStep | src/graphic_engine.rs:108-181 | only the in-flight future changes, and it is present afterwards; the flag is never cleared, and is raised exactly by an out-of-date or suboptimal acquire or an out-of-date flush; an out-of-date acquire skips the frame and changes nothing else; otherwise the frame is recorded against `framebuffers[image_index]` and submitted for presentation (whether the present succeeds is the flush's answer); a successful flush stores its pending future, any flush error resets it to completed; the engine invariant is kept |
| GraphicEngine.RecreateStep | src/graphic_engine.rs:183-208 | an unsupported extent changes nothing, flag included; success installs a swapchain whose configuration differs from the old one only in the extent, rebuilds the framebuffers one per new image, fits the viewport to the first image, keeps the future and clears the flag; the engine invariant is kept |
| GraphicEngine.Engine.constructor | src/graphic_engine.rs:81-105 | the new engine satisfies the invariant (framebuffers follow the images, viewport at the first image's size, origin 0 and depth 0..1) and starts with a completed future and no frames |
| GraphicEngine.Engine.WindowSizeDependentSetup | src/graphic_engine.rs:308-330 | for a non-empty image list: exactly one framebuffer per image in image order, and the viewport gets the first image's width and height with origin and depth range unchanged |
| GraphicEngine.Engine.Render | src/graphic_engine.rs:108-181 | updates the fields and the flag exactly as `RenderStep`, logs the frame it submitted for presentation, if any, and keeps the invariant |
| GraphicEngine.Engine.RecreateSwapchain | src/graphic_engine.rs:183-208 | updates the fields and the flag exactly as `RecreateStep`, submits nothing, and keeps the invariant |
| EventLoop.Dispatch | src/lib.rs:54-71 | a close request sets `Exit` and touches nothing else; a resize only raises the flag; any other event changes nothing; a redraw keeps the control flow, swapchain and framebuffers, never clears the flag, raises it exactly on render's out-of-date or suboptimal answers, and submits the acquired image through its own framebuffer; the engine invariant is kept |
| EventLoop.EventStep | src/lib.rs:53-77 | the flag survives an event exactly when it was pending, raised by a resize or raised by render, and recreation was then refused for the window's extent; whenever it was raised and recreation succeeds, the new swapchain has the old configuration at the window's size and one framebuffer per new image, and otherwise swapchain and framebuffers are unchanged; only a close request changes the control flow, to `Exit`; a refused resize leaves the engine alone; with no pending recreation a close or unrelated event changes neither engine nor flag; a frame is submitted for presentation exactly on a redraw whose acquire succeeded, through the acquired image's framebuffer of the swapchain before the event; the in-flight future changes only then, as the flush decides |
| EventLoop.Run | src/lib.rs:53-77 | every sequence of events the closure survives keeps the engine invariant |
| EventLoop.ExitIsFinal | src/lib.rs:55-60 | once the control flow is `Exit` no later event resets it |
| EventLoop.PendingFlagMeansRefusedExtent | src/lib.rs:73-76 | at the end of any non-empty run the flag is set only if the last event's recreation was refused for its extent |
| EventLoop.ResizeThenRedrawUsesNewImages | src/lib.rs:61-76 | after a resize and a successful recreate, the next redraw draws through the framebuffer of the new swapchain's acquired image, never a stale one |
| EventLoop.SteadyRunPresentsEveryFrame | src/lib.rs:67-69 | with no resize and successful acquires and flushes, every redraw submits one frame against the unchanged swapchain's framebuffer for its index, the flag stays clear, and the final future is the last flush's |
| EventLoop.App.constructor | src/lib.rs:51-52 | the shared recreate flag starts false and the loop starts polling |
| EventLoop.App.HandleEvent | src/lib.rs:53-77 | one closure call changes the flag, the control flow and the engine exactly as `EventStep`, and keeps the engine invariant |

## Left out

- Instance, library, window and surface creation in `App::new`: these are calls into vulkano and winit. The engine is built from an initial swapchain that the model takes as given.
- `get_device` and `get_swapchain`: they only pass values through to `Device::new` and `Swapchain::new`. Their preconditions are not modelled: at least two surface formats (the `[1]` index) and a non-empty set of composite-alpha modes.
- Render-pass and command-buffer construction: these are library macros and builders. A frame recorded and submitted for presentation becomes a `Submission` in a ghost log.
- The GPU future chain (`join`, `then_execute`, `then_swapchain_present`, `cleanup_finished`): this is asynchronous GPU work. A future is `Completed` or `Pending(id)`, with no timing. `cleanup_finished` has no visible effect at that level.
- Floating point: the clear colour is not modelled. The viewport holds the integer dimensions that the source converts to `f32`, so rounding above 2^24 is not modelled.
- Panics become preconditions, not process termination. These are: an acquire error other than `OutOfDate`, a recreate error other than `ImageExtentNotSupported`, an empty image list, an acquired index outside the framebuffers, a missing in-flight future, and a failing `then_execute`, command-buffer or framebuffer builder, which are not modelled at all.
- The `println!` on a flush failure other than `OutOfDate` (src/graphic_engine.rs:177): console output is not modelled; the model keeps only the reset of the in-flight future.
- The panic of `enumerate_physical_devices().unwrap()` (src/graphic_engine.rs:216-217): enumeration is taken to succeed, and the adapter list is an input.
- The panics of `surface.object().unwrap()` and `downcast_ref::<Window>().unwrap()` (src/graphic_engine.rs:184-189): the surface is taken to belong to a winit window, whose inner size is an input.
- DeviceSelection.CandidatesFrom: the queue-family index is a `nat`, so the `i as u32` cast at line 235 is not modelled. It only matters with more than 2^32 families.
- EventLoop.EventStep: the size carried by `Resized` is ignored, as in the source. The extent used is the window's inner size, which the model takes as an input.
- The winit loop itself: event delivery, `LoopDestroyed`, and the loop stopping after `Exit`. The model handles any sequence of events.
- Recreating at an unchanged extent keeps the framebuffer count and sizes only if the library returns the same images. That is the library's choice, so the model states nothing about it.
