/** Abstract stand-ins for the values the GPU library (vulkano) and the
    windowing library (winit) hand to the engine. Handles are reduced to
    numeric identities; only the attributes the engine's decisions depend
    on are kept. */
module GpuTypes {

  datatype Option<+T> = None | Some(value: T) {
    /** `Option::unwrap_or` */
    function GetOr(default: T): T {
      match this
      case Some(v) => v
      case None => default
    }
  }

  /** Width of the library's `u32` fields. */
  type U32 = x: int | 0 <= x < 0x1_0000_0000

  /** A pixel extent `[u32; 2]`. */
  datatype Extent = Extent(width: U32, height: U32)

  /** One presentable image owned by a swapchain, with its dimensions. */
  datatype Image = Image(id: nat, extent: Extent)

  /** The configuration a swapchain was created with (`SwapchainCreateInfo`);
      format, usage and composite alpha are opaque codes. */
  datatype SwapchainCreateInfo = SwapchainCreateInfo(
    minImageCount: U32,
    imageFormat: nat,
    imageExtent: Extent,
    imageUsage: nat,
    compositeAlpha: nat)

  /** A swapchain handle together with its configuration and the images it owns. */
  datatype Swapchain = Swapchain(id: nat, createInfo: SwapchainCreateInfo, images: seq<Image>)

  /** A framebuffer binds the shared render pass to a view of one swapchain image. */
  datatype Framebuffer = Framebuffer(renderPass: nat, attachment: Image)

  /** The in-flight GPU work: either already complete (`sync::now`) or a
      flushed chain still pending on the device. */
  datatype GpuFuture = Completed | Pending(id: nat)

  /** What `swapchain::acquire_next_image` reports. */
  datatype AcquireResult =
    | Acquired(imageIndex: U32, suboptimal: bool)
    | AcquireOutOfDate
    | AcquireFailed

  /** What `then_signal_fence_and_flush` reports. */
  datatype FlushResult =
    | Flushed(future: nat)
    | FlushOutOfDate
    | FlushFailed

  /** What `Swapchain::recreate` reports: the new handle and its images, the
      recoverable `ImageExtentNotSupported`, or any other (fatal) error. */
  datatype RecreateResult =
    | Recreated(swapchain: nat, images: seq<Image>)
    | ImageExtentNotSupported
    | RecreateFailed
}
