/** Choosing the physical device and queue family the engine runs on
    (`Graphicengine::get_best_compatible_physical_device`): keep the adapters
    that support the required device extensions, pair each with its first
    queue family that can both draw and present to the window's surface, and
    take the pair whose device type is most preferred, the earliest one among
    equals. */
module DeviceSelection {
  import opened GpuTypes

  /** `PhysicalDeviceType`; the library's enum is non-exhaustive, so any value
      it may add later is `Unrecognized`. */
  datatype DeviceType = DiscreteGpu | IntegratedGpu | VirtualGpu | Cpu | Other | Unrecognized(code: int)

  /** A queue family as the adapter reports it: whether it supports graphics,
      and the answer of `surface_support` for the window's surface (`None`
      when that query returned an error). */
  datatype QueueFamily = QueueFamily(graphics: bool, surfaceSupport: Option<bool>)

  /** A physical device (adapter) as enumerated by the instance. */
  datatype PhysicalDevice = PhysicalDevice(
    supportedExtensions: set<string>,
    queueFamilies: seq<QueueFamily>,
    deviceType: DeviceType)

  /** An adapter that survived both filters, with its position in the
      enumeration and the queue family chosen on it. */
  datatype Candidate = Candidate(position: nat, device: PhysicalDevice, queueFamilyIndex: nat)

  /** The device extensions the engine asks for: only `khr_swapchain`. */
  const RequiredExtensions: set<string> := {"khr_swapchain"}

  /** Preference score of a device type: lower is preferred. */
  function Rank(t: DeviceType): nat {
    match t
    case DiscreteGpu => 0
    case IntegratedGpu => 1
    case VirtualGpu => 2
    case Cpu => 3
    case Other => 4
    case Unrecognized(_) => 5
  }

  /** `supported_extensions().contains(required)`. */
  predicate SupportsExtensions(d: PhysicalDevice, required: set<string>) {
    required <= d.supportedExtensions
  }

  /** A family qualifies when it has the graphics flag and the surface query
      answered yes; an error from the query counts as no (`unwrap_or(false)`). */
  predicate DrawsOnSurface(q: QueueFamily) {
    q.graphics && q.surfaceSupport.GetOr(false)
  }

  /** `position` over the queue families: the index of the first qualifying one. */
  function FirstDrawingFamily(qs: seq<QueueFamily>): (r: Option<nat>)
    ensures r.Some? ==> r.value < |qs| && DrawsOnSurface(qs[r.value])
    ensures r.Some? ==> forall j :: 0 <= j < r.value ==> !DrawsOnSurface(qs[j])
    ensures r.None? <==> forall j :: 0 <= j < |qs| ==> !DrawsOnSurface(qs[j])
  {
    if qs == [] then None
    else if DrawsOnSurface(qs[0]) then Some(0)
    else
      match FirstDrawingFamily(qs[1..])
      case None => None
      case Some(k) => Some(k + 1)
  }

  /** The adapter at position `i` survives both filters. */
  predicate Eligible(devices: seq<PhysicalDevice>, required: set<string>, i: int) {
    && 0 <= i < |devices|
    && SupportsExtensions(devices[i], required)
    && FirstDrawingFamily(devices[i].queueFamilies).Some?
  }

  /** `c` is the pair the two filters produce for the adapter it names. */
  predicate IsCandidate(devices: seq<PhysicalDevice>, required: set<string>, c: Candidate) {
    && Eligible(devices, required, c.position)
    && c.device == devices[c.position]
    && FirstDrawingFamily(c.device.queueFamilies) == Some(c.queueFamilyIndex)
  }

  /** The `filter` then `filter_map` stages over the adapters from position
      `start` on, in enumeration order. */
  function CandidatesFrom(devices: seq<PhysicalDevice>, required: set<string>, start: nat): (cs: seq<Candidate>)
    requires start <= |devices|
    ensures forall k :: 0 <= k < |cs| ==> IsCandidate(devices, required, cs[k]) && start <= cs[k].position
    ensures forall k, l :: 0 <= k < l < |cs| ==> cs[k].position < cs[l].position
    decreases |devices| - start
  {
    if start == |devices| then []
    else CandidateAt(devices, required, start) + CandidatesFrom(devices, required, start + 1)
  }

  /** What the two filters yield for the adapter at position `i`: nothing,
      or the adapter paired with its first qualifying family. */
  function CandidateAt(devices: seq<PhysicalDevice>, required: set<string>, i: nat): (here: seq<Candidate>)
    requires i < |devices|
    ensures Eligible(devices, required, i) ==> |here| == 1 && here[0].position == i
  {
    var d := devices[i];
    if SupportsExtensions(d, required) then
      match FirstDrawingFamily(d.queueFamilies)
      case Some(q) => [Candidate(i, d, q)]
      case None => []
    else []
  }

  /** No eligible adapter is dropped by the two filters. */
  lemma {:induction false} CandidatesComplete(devices: seq<PhysicalDevice>, required: set<string>, start: nat, i: int)
    requires start <= i < |devices| && Eligible(devices, required, i)
    ensures exists k :: 0 <= k < |CandidatesFrom(devices, required, start)| &&
              CandidatesFrom(devices, required, start)[k].position == i
    decreases |devices| - start
  {
    var cs := CandidatesFrom(devices, required, start);
    var rest := CandidatesFrom(devices, required, start + 1);
    var here := CandidateAt(devices, required, start);
    assert cs == here + rest;
    if i == start {
      assert cs[0].position == i;
    } else {
      CandidatesComplete(devices, required, start + 1, i);
      var k :| 0 <= k < |rest| && rest[k].position == i;
      assert cs[|here| + k] == rest[k];
    }
  }

  function Key(c: Candidate): nat {
    Rank(c.device.deviceType)
  }

  /** The fold behind `min_by_key`: a later element replaces the current best
      only when its key is strictly smaller, so the first of equals is kept. */
  function MinByKeyFold(best: Candidate, rest: seq<Candidate>): Candidate
    decreases |rest|
  {
    if rest == [] then best
    else MinByKeyFold(if Key(rest[0]) < Key(best) then rest[0] else best, rest[1..])
  }

  function MinByKey(cs: seq<Candidate>): Option<Candidate> {
    if cs == [] then None else Some(MinByKeyFold(cs[0], cs[1..]))
  }

  /** `cs[k]` has the least key of `cs` and every element before it a larger one. */
  predicate FirstMinimum(cs: seq<Candidate>, k: int) {
    && 0 <= k < |cs|
    && (forall j :: 0 <= j < |cs| ==> Key(cs[k]) <= Key(cs[j]))
    && (forall j :: 0 <= j < k ==> Key(cs[k]) < Key(cs[j]))
  }

  lemma {:induction false} MinByKeyFoldFirstMinimum(cs: seq<Candidate>, b: nat, n: nat) returns (k: nat)
    requires b < n <= |cs|
    requires forall j :: 0 <= j < n ==> Key(cs[b]) <= Key(cs[j])
    requires forall j :: 0 <= j < b ==> Key(cs[b]) < Key(cs[j])
    ensures FirstMinimum(cs, k) && cs[k] == MinByKeyFold(cs[b], cs[n..])
    decreases |cs| - n
  {
    if n == |cs| {
      assert cs[n..] == [];
      k := b;
    } else {
      assert cs[n..][0] == cs[n];
      assert cs[n..][1..] == cs[n + 1..];
      if Key(cs[n]) < Key(cs[b]) {
        k := MinByKeyFoldFirstMinimum(cs, n, n + 1);
      } else {
        k := MinByKeyFoldFirstMinimum(cs, b, n + 1);
      }
    }
  }

  /** `min_by_key` returns nothing exactly on an empty input, and otherwise
      the first element whose key is minimal. */
  lemma MinByKeyIsFirstMinimum(cs: seq<Candidate>)
    ensures MinByKey(cs).None? <==> cs == []
    ensures MinByKey(cs).Some? ==> exists k :: FirstMinimum(cs, k) && cs[k] == MinByKey(cs).value
  {
    if cs != [] {
      var k := MinByKeyFoldFirstMinimum(cs, 0, 1);
    }
  }

  /** The whole pipeline; `None` is the `expect("No suitable physical device
      found")` failure. */
  function SelectPhysicalDevice(devices: seq<PhysicalDevice>, required: set<string>): Option<Candidate> {
    MinByKey(CandidatesFrom(devices, required, 0))
  }

  /** Reference definition of the right answer: an eligible adapter with its
      first qualifying family, whose rank no eligible adapter beats, and which
      every earlier eligible adapter ranks strictly worse than. */
  ghost predicate BestChoice(devices: seq<PhysicalDevice>, required: set<string>, c: Candidate) {
    && IsCandidate(devices, required, c)
    && (forall i :: Eligible(devices, required, i) ==>
          Rank(c.device.deviceType) <= Rank(devices[i].deviceType))
    && (forall i :: 0 <= i < c.position && Eligible(devices, required, i) ==>
          Rank(c.device.deviceType) < Rank(devices[i].deviceType))
  }

  /** Selection fails exactly when no adapter is eligible; otherwise it returns
      the unique best choice, which supports the required extensions and uses
      the lowest-indexed family that can draw on the surface. */
  lemma SelectPhysicalDeviceCorrect(devices: seq<PhysicalDevice>, required: set<string>)
    ensures SelectPhysicalDevice(devices, required).None? <==>
              forall i :: 0 <= i < |devices| ==> !Eligible(devices, required, i)
    ensures SelectPhysicalDevice(devices, required).Some? ==>
              BestChoice(devices, required, SelectPhysicalDevice(devices, required).value)
    ensures forall c :: BestChoice(devices, required, c) ==> SelectPhysicalDevice(devices, required) == Some(c)
    ensures SelectPhysicalDevice(devices, required).Some? ==>
              var c := SelectPhysicalDevice(devices, required).value;
              && required <= c.device.supportedExtensions
              && c.queueFamilyIndex < |c.device.queueFamilies|
              && DrawsOnSurface(c.device.queueFamilies[c.queueFamilyIndex])
              && (forall j :: 0 <= j < c.queueFamilyIndex ==> !DrawsOnSurface(c.device.queueFamilies[j]))
  {
    var cs := CandidatesFrom(devices, required, 0);
    MinByKeyIsFirstMinimum(cs);
    forall i | Eligible(devices, required, i)
      ensures exists k :: 0 <= k < |cs| && cs[k].position == i
    {
      CandidatesComplete(devices, required, 0, i);
    }
    if cs != [] {
      assert IsCandidate(devices, required, cs[0]);
      var k :| FirstMinimum(cs, k) && cs[k] == SelectPhysicalDevice(devices, required).value;
      var c := cs[k];
      forall i | Eligible(devices, required, i)
        ensures Rank(c.device.deviceType) <= Rank(devices[i].deviceType)
        ensures i < c.position ==> Rank(c.device.deviceType) < Rank(devices[i].deviceType)
      {
        var k' :| 0 <= k' < |cs| && cs[k'].position == i;
        assert cs[k'].device == devices[i];
        assert i < c.position ==> k' < k;
      }
      assert BestChoice(devices, required, c);
      forall c' | BestChoice(devices, required, c')
        ensures c' == c
      {
        BestChoiceUnique(devices, required, c, c');
      }
    }
  }

  /** At most one pair meets the reference definition. */
  lemma BestChoiceUnique(devices: seq<PhysicalDevice>, required: set<string>, c1: Candidate, c2: Candidate)
    requires BestChoice(devices, required, c1) && BestChoice(devices, required, c2)
    ensures c1 == c2
  {
  }

  /** An eligible discrete GPU is always preferred: in particular, of an
      integrated and a discrete adapter that both qualify, the discrete one
      is chosen. */
  lemma PrefersDiscreteGpu(devices: seq<PhysicalDevice>, required: set<string>, i: nat)
    requires Eligible(devices, required, i) && devices[i].deviceType == DiscreteGpu
    ensures SelectPhysicalDevice(devices, required).Some?
    ensures SelectPhysicalDevice(devices, required).value.device.deviceType == DiscreteGpu
  {
    SelectPhysicalDeviceCorrect(devices, required);
  }

  /** Whatever adapter the engine selects supports `khr_swapchain`. */
  lemma SelectedSupportsSwapchain(devices: seq<PhysicalDevice>)
    requires SelectPhysicalDevice(devices, RequiredExtensions).Some?
    ensures "khr_swapchain" in SelectPhysicalDevice(devices, RequiredExtensions).value.device.supportedExtensions
  {
    SelectPhysicalDeviceCorrect(devices, RequiredExtensions);
  }
}
