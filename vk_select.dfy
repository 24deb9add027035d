/**
 * Vulkan device and swapchain selection (src/renderer/vulkan/renderer.cpp):
 * naming queue families, checking device extensions, finding the first
 * physical device that can render to the surface, and choosing the
 * swapchain's surface format, present mode, extent, image count and
 * sharing mode. What the driver reports about a physical device is modelled
 * as a value (`PhysicalDevice`); the queries themselves are left out.
 */
module VulkanSelection {
  import opened Errors
  import opened Bytes
  import opened EnumFlags

  /** `VK_QUEUE_GRAPHICS_BIT`, `VK_QUEUE_COMPUTE_BIT` and `VK_QUEUE_TRANSFER_BIT`. */
  const QUEUE_GRAPHICS_BIT: Flags := 0x1
  const QUEUE_COMPUTE_BIT: Flags := 0x2
  const QUEUE_TRANSFER_BIT: Flags := 0x4

  /** `VK_FORMAT_B8G8R8A8_SRGB` and `VK_COLOR_SPACE_SRGB_NONLINEAR_KHR`. */
  const FORMAT_B8G8R8A8_SRGB: nat := 50
  const COLOR_SPACE_SRGB_NONLINEAR: nat := 0

  /** `VkPresentModeKHR` values. */
  type PresentMode = nat
  const PRESENT_MODE_IMMEDIATE: PresentMode := 0
  const PRESENT_MODE_MAILBOX: PresentMode := 1
  const PRESENT_MODE_FIFO: PresentMode := 2

  const UINT32_MAX: Uint32 := 0xFFFF_FFFF

  /** `VkSurfaceFormatKHR`. */
  datatype SurfaceFormat = SurfaceFormat(format: nat, colorSpace: nat)

  /** The 32-bit sRGB format the swapchain prefers. */
  const PREFERRED_FORMAT := SurfaceFormat(FORMAT_B8G8R8A8_SRGB, COLOR_SPACE_SRGB_NONLINEAR)

  /**
   * A queue family as reported for a physical device; `canPresent` is the
   * answer `vkGetPhysicalDeviceSurfaceSupportKHR` gives for the surface.
   */
  datatype QueueFamily = QueueFamily(flags: Flags, queueCount: Uint32, canPresent: bool)

  /** What the driver reports about a physical device and the surface. */
  datatype PhysicalDevice = PhysicalDevice(
    extensions: seq<string>, surfaceFormats: seq<SurfaceFormat>,
    presentModes: seq<PresentMode>, queueFamilies: seq<QueueFamily>)

  /** `GraphicsDeviceInfo`: a compatible device and the queue families chosen on it. */
  datatype GraphicsDeviceInfo = GraphicsDeviceInfo(
    device: PhysicalDevice, surfaceFormats: seq<SurfaceFormat>, presentModes: seq<PresentMode>,
    graphicsFamily: nat, graphicsCount: Uint32, presentFamily: nat, presentCount: Uint32)

  /** `VkExtent2D`. */
  datatype Extent2D = Extent2D(width: Uint32, height: Uint32)

  /** The parts of `VkSurfaceCapabilitiesKHR` the swapchain uses. */
  datatype SurfaceCapabilities = SurfaceCapabilities(
    minImageCount: Uint32, maxImageCount: Uint32,
    currentExtent: Extent2D, minImageExtent: Extent2D, maxImageExtent: Extent2D)

  /** `VK_SHARING_MODE_EXCLUSIVE`, or `VK_SHARING_MODE_CONCURRENT` with the sharing queue families. */
  datatype SharingMode = Exclusive | Concurrent(familyIndices: seq<nat>)

  /** The parts of `VkSwapchainCreateInfoKHR` that are chosen rather than fixed. */
  datatype SwapchainCreateInfo = SwapchainCreateInfo(
    minImageCount: Uint32, format: SurfaceFormat, extent: Extent2D,
    presentMode: PresentMode, sharing: SharingMode)

  // ----- queue families and extensions

  predicate IsGraphics(f: QueueFamily)
  {
    Has(f.flags, QUEUE_GRAPHICS_BIT)
  }

  predicate CanPresent(f: QueueFamily)
  {
    f.canPresent
  }

  /**
   * `get_queue_family_type`: the kind of queue a family offers, graphics
   * before compute before transfer, and none when it offers none of them.
   */
  function QueueFamilyType(flags: Flags): (r: Option<string>)
    ensures r == Some("graphics & compute") <==> Has(flags, QUEUE_GRAPHICS_BIT) && Has(flags, QUEUE_COMPUTE_BIT)
    ensures r == Some("graphics") <==> Has(flags, QUEUE_GRAPHICS_BIT) && !Has(flags, QUEUE_COMPUTE_BIT)
    ensures r == Some("compute") <==> !Has(flags, QUEUE_GRAPHICS_BIT) && Has(flags, QUEUE_COMPUTE_BIT)
    ensures r == Some("transfer") <==>
      !Has(flags, QUEUE_GRAPHICS_BIT) && !Has(flags, QUEUE_COMPUTE_BIT) && Has(flags, QUEUE_TRANSFER_BIT)
    ensures r.None? <==>
      !Has(flags, QUEUE_GRAPHICS_BIT) && !Has(flags, QUEUE_COMPUTE_BIT) && !Has(flags, QUEUE_TRANSFER_BIT)
  {
    if flags & QUEUE_GRAPHICS_BIT != 0 then
      if flags & QUEUE_COMPUTE_BIT != 0 then Some("graphics & compute") else Some("graphics")
    else if flags & QUEUE_COMPUTE_BIT != 0 then Some("compute")
    else if flags & QUEUE_TRANSFER_BIT != 0 then Some("transfer")
    else None
  }

  /** The inner `any_of`: whether some available extension has the required name. */
  function SupportsExtension(name: string, available: seq<string>): (r: bool)
    ensures r <==> name in available
  {
    if available == [] then false else name == available[0] || SupportsExtension(name, available[1..])
  }

  /** `device_supports_extensions`: `all_of` the required names are supported; vacuously for none. */
  function DeviceSupportsExtensions(required: seq<string>, available: seq<string>): (r: bool)
    ensures r <==> forall e :: e in required ==> e in available
  {
    if required == [] then true
    else SupportsExtension(required[0], available) && DeviceSupportsExtensions(required[1..], available)
  }

  /** The index of the last family that satisfies `p`, the one the family loop leaves recorded. */
  function LastWith(fams: seq<QueueFamily>, p: QueueFamily -> bool): (r: Option<nat>)
    ensures r.Some? ==>
      r.value < |fams| && p(fams[r.value]) && forall k :: r.value < k < |fams| ==> !p(fams[k])
    ensures r.None? ==> forall k :: 0 <= k < |fams| ==> !p(fams[k])
  {
    if fams == [] then None
    else if p(fams[|fams| - 1]) then Some(|fams| - 1)
    else LastWith(fams[..|fams| - 1], p)
  }

  // ----- device compatibility

  /**
   * What `get_compatible_device_info` yields for a device: information
   * exactly when the device has a graphics family, a family that can
   * present to the surface, every required extension and at least one
   * surface format and present mode. The families recorded are the last
   * ones of each kind, since every later match overwrites an earlier one.
   */
  function CompatibleInfo(d: PhysicalDevice, required: seq<string>): (r: Option<GraphicsDeviceInfo>)
    ensures r.Some? ==> r.value.device == d && r.value.surfaceFormats != [] && r.value.presentModes != []
    ensures r.Some? ==> r.value.graphicsFamily < |d.queueFamilies| && IsGraphics(d.queueFamilies[r.value.graphicsFamily])
    ensures r.Some? ==> r.value.presentFamily < |d.queueFamilies| && d.queueFamilies[r.value.presentFamily].canPresent
  {
    var fams := d.queueFamilies;
    var g := LastWith(fams, IsGraphics);
    var p := LastWith(fams, CanPresent);
    if g.Some? && p.Some? && DeviceSupportsExtensions(required, d.extensions) &&
       d.surfaceFormats != [] && d.presentModes != []
    then
      Some(GraphicsDeviceInfo(d, d.surfaceFormats, d.presentModes,
        g.value, fams[g.value].queueCount, p.value, fams[p.value].queueCount))
    else
      None
  }

  /**
   * `get_compatible_device_info`: walks the queue families once, recording
   * each graphics family and each family that can present as it meets them.
   */
  method CompatibleDeviceInfo(d: PhysicalDevice, required: seq<string>) returns (r: Option<GraphicsDeviceInfo>)
    ensures r == CompatibleInfo(d, required)
  {
    var supportsExtensions := DeviceSupportsExtensions(required, d.extensions);
    var fams := d.queueFamilies;
    var graphicsFamily: nat, graphicsCount: Uint32 := 0, 0;
    var presentFamily: nat, presentCount: Uint32 := 0, 0;
    var hasGraphics, supportsSurface := false, false;
    for i := 0 to |fams|
      invariant LastWith(fams[..i], IsGraphics) == (if hasGraphics then Some(graphicsFamily) else None)
      invariant hasGraphics ==> graphicsFamily < i && graphicsCount == fams[graphicsFamily].queueCount
      invariant LastWith(fams[..i], CanPresent) == (if supportsSurface then Some(presentFamily) else None)
      invariant supportsSurface ==> presentFamily < i && presentCount == fams[presentFamily].queueCount
    {
      LastWithStep(fams, i, IsGraphics);
      LastWithStep(fams, i, CanPresent);
      if fams[i].flags & QUEUE_GRAPHICS_BIT != 0 {
        graphicsFamily, graphicsCount, hasGraphics := i, fams[i].queueCount, true;
      }
      if fams[i].canPresent {
        presentFamily, presentCount, supportsSurface := i, fams[i].queueCount, true;
      }
    }
    assert fams[..|fams|] == fams;
    if hasGraphics && supportsSurface && supportsExtensions && d.surfaceFormats != [] && d.presentModes != [] {
      r := Some(GraphicsDeviceInfo(d, d.surfaceFormats, d.presentModes,
        graphicsFamily, graphicsCount, presentFamily, presentCount));
    } else {
      r := None;
    }
  }

  /** The devices of the groups, in enumeration order. */
  function Flatten(groups: seq<seq<PhysicalDevice>>): seq<PhysicalDevice>
  {
    if groups == [] then [] else Flatten(groups[..|groups| - 1]) + groups[|groups| - 1]
  }

  /** The values of the present options, in order. */
  function Somes<T>(xs: seq<Option<T>>): seq<T>
  {
    if xs == [] then []
    else Somes(xs[..|xs| - 1]) + (if xs[|xs| - 1].Some? then [xs[|xs| - 1].value] else [])
  }

  /** What `get_compatible_device_info` yields for each of `ds`, in order. */
  function Infos(ds: seq<PhysicalDevice>, required: seq<string>): (r: seq<Option<GraphicsDeviceInfo>>)
    ensures |r| == |ds|
    ensures forall k :: 0 <= k < |ds| ==> r[k] == CompatibleInfo(ds[k], required)
  {
    if ds == [] then [] else Infos(ds[..|ds| - 1], required) + [CompatibleInfo(ds[|ds| - 1], required)]
  }

  /** The information of the first compatible device among `ds`, if there is one. */
  function FirstCompatible(ds: seq<PhysicalDevice>, required: seq<string>): (r: Option<GraphicsDeviceInfo>)
    ensures r.None? <==> forall k :: 0 <= k < |ds| ==> CompatibleInfo(ds[k], required).None?
    ensures r.Some? ==>
      exists k :: 0 <= k < |ds| && CompatibleInfo(ds[k], required) == r &&
        (forall j :: 0 <= j < k ==> CompatibleInfo(ds[j], required).None?)
  {
    var infos := Infos(ds, required);
    SomesFirst(infos);
    var cs := Somes(infos);
    if cs == [] then None else Some(cs[0])
  }

  /**
   * The inner loop of `find_graphics_device`: appends the information of
   * each compatible device of one group, in order, to what the devices
   * enumerated `before` it gave.
   */
  method CollectCompatible(group: seq<PhysicalDevice>, required: seq<string>,
                           ghost before: seq<PhysicalDevice>, devices: seq<GraphicsDeviceInfo>)
    returns (graphicsDevices: seq<GraphicsDeviceInfo>)
    requires devices == Somes(Infos(before, required))
    ensures graphicsDevices == Somes(Infos(before + group[..|group|], required))
  {
    graphicsDevices := devices;
    assert before + group[..0] == before;
    for j := 0 to |group|
      invariant graphicsDevices == Somes(Infos(before + group[..j], required))
    {
      var info := CompatibleDeviceInfo(group[j], required);
      SliceStep(before, group, j);
      InfosAppend(before + group[..j], group[j], required);
      SomesAppend(Infos(before + group[..j], required), info);
      if info.Some? {
        graphicsDevices := graphicsDevices + [info.value];
      }
    }
  }

  /**
   * `find_graphics_device`: collects the compatible devices of every group
   * in enumeration order and picks the first; none when there is none.
   */
  method FindGraphicsDevice(groups: seq<seq<PhysicalDevice>>, required: seq<string>)
    returns (r: Option<GraphicsDeviceInfo>)
    ensures r == FirstCompatible(Flatten(groups), required)
  {
    var graphicsDevices: seq<GraphicsDeviceInfo> := [];
    for g := 0 to |groups|
      invariant graphicsDevices == Somes(Infos(Flatten(groups[..g]), required))
    {
      graphicsDevices := CollectCompatible(groups[g], required, Flatten(groups[..g]), graphicsDevices);
      FlattenStep(groups, g);
    }
    assert groups[..|groups|] == groups;
    if graphicsDevices == [] {
      return None;
    }
    r := Some(graphicsDevices[0]);
  }

  // ----- swapchain

  /**
   * `pick_swapchain_surface_format`: the 32-bit sRGB format when it is
   * offered, otherwise the first format offered. The list must not be empty.
   */
  method PickSurfaceFormat(formats: seq<SurfaceFormat>) returns (r: SurfaceFormat)
    requires |formats| > 0
    ensures PREFERRED_FORMAT in formats ==> r == PREFERRED_FORMAT
    ensures PREFERRED_FORMAT !in formats ==> r == formats[0]
  {
    for i := 0 to |formats|
      invariant forall k :: 0 <= k < i ==> formats[k] != PREFERRED_FORMAT
    {
      if formats[i].format == FORMAT_B8G8R8A8_SRGB && formats[i].colorSpace == COLOR_SPACE_SRGB_NONLINEAR {
        return formats[i];
      }
    }
    r := formats[0];
  }

  /** `std::find`: the index of the first occurrence of `m`, or the length when there is none. */
  function Find(modes: seq<PresentMode>, m: PresentMode): (r: nat)
    ensures r <= |modes|
    ensures r < |modes| ==> modes[r] == m
    ensures forall k :: 0 <= k < r ==> modes[k] != m
  {
    if modes == [] then 0 else if modes[0] == m then 0 else 1 + Find(modes[1..], m)
  }

  /**
   * `pick_swapchain_present_mode`: mailbox exactly when it is offered,
   * otherwise FIFO, which every surface offers, so the mode picked is
   * always one the surface offers.
   */
  function PickPresentMode(modes: seq<PresentMode>): (r: PresentMode)
    ensures r == PRESENT_MODE_MAILBOX <==> PRESENT_MODE_MAILBOX in modes
    ensures r != PRESENT_MODE_MAILBOX ==> r == PRESENT_MODE_FIFO
    ensures PRESENT_MODE_FIFO in modes ==> r in modes
  {
    if Find(modes, PRESENT_MODE_MAILBOX) != |modes| then PRESENT_MODE_MAILBOX else PRESENT_MODE_FIFO
  }

  /** `std::max(lo, std::min(hi, v))`: v brought into [lo, hi]; lo wins when the range is empty. */
  function ClampDimension(lo: Uint32, hi: Uint32, v: Uint32): (r: Uint32)
    ensures lo <= hi ==> lo <= r <= hi
    ensures lo <= v <= hi ==> r == v
    ensures v < lo || hi < lo ==> r == lo
    ensures lo <= hi < v ==> r == hi
  {
    var m := if hi < v then hi else v;
    if lo < m then m else lo
  }

  /** Whether an extent lies within the surface's minimum and maximum extents. */
  predicate Fits(e: Extent2D, caps: SurfaceCapabilities)
  {
    caps.minImageExtent.width <= e.width <= caps.maxImageExtent.width &&
    caps.minImageExtent.height <= e.height <= caps.maxImageExtent.height
  }

  /**
   * `pick_swapchain_extent`: the surface's current extent unless its width
   * is the "undefined" UINT32_MAX; otherwise the desired extent with each
   * dimension clamped into the surface's range, which keeps a desired
   * extent that already fits.
   */
  function PickSwapchainExtent(caps: SurfaceCapabilities, desired: Extent2D): (r: Extent2D)
    ensures caps.currentExtent.width != UINT32_MAX ==> r == caps.currentExtent
    ensures caps.currentExtent.width == UINT32_MAX ==>
      r.width == ClampDimension(caps.minImageExtent.width, caps.maxImageExtent.width, desired.width) &&
      r.height == ClampDimension(caps.minImageExtent.height, caps.maxImageExtent.height, desired.height)
    ensures caps.currentExtent.width == UINT32_MAX && Fits(desired, caps) ==> r == desired
    ensures (caps.currentExtent.width == UINT32_MAX &&
      caps.minImageExtent.width <= caps.maxImageExtent.width &&
      caps.minImageExtent.height <= caps.maxImageExtent.height) ==> Fits(r, caps)
  {
    if caps.currentExtent.width != UINT32_MAX then caps.currentExtent
    else
      Extent2D(
        ClampDimension(caps.minImageExtent.width, caps.maxImageExtent.width, desired.width),
        ClampDimension(caps.minImageExtent.height, caps.maxImageExtent.height, desired.height))
  }

  /**
   * The swapchain's image count: one more than the minimum, to at least
   * double buffer, capped at the maximum when there is one (a maximum of 0
   * means none). The increment is 32-bit and wraps.
   */
  function ImageCount(caps: SurfaceCapabilities): (r: Uint32)
    ensures (caps.minImageCount < UINT32_MAX &&
      (caps.maxImageCount == 0 || caps.minImageCount < caps.maxImageCount)) ==> r == caps.minImageCount + 1
    ensures caps.maxImageCount > 0 ==> r <= caps.maxImageCount
    ensures caps.minImageCount < UINT32_MAX && caps.minImageCount <= caps.maxImageCount ==> r >= caps.minImageCount
    ensures caps.minImageCount == UINT32_MAX ==> r == 0
  {
    var count := (caps.minImageCount + 1) % 0x1_0000_0000;
    if caps.maxImageCount > 0 && caps.maxImageCount < count then caps.maxImageCount else count
  }

  /** The sharing mode: concurrent between the two families exactly when they differ. */
  function ImageSharing(graphicsFamily: nat, presentFamily: nat): (r: SharingMode)
    ensures r.Concurrent? <==> graphicsFamily != presentFamily
    ensures r.Concurrent? ==> r.familyIndices == [graphicsFamily, presentFamily]
  {
    if graphicsFamily != presentFamily then Concurrent([graphicsFamily, presentFamily]) else Exclusive
  }

  /**
   * The choices `create_swapchain` makes for a compatible device: the
   * picked surface format and present mode, the image count, the extent
   * and the sharing mode. The window size is an `unsigned long` pair cast
   * to `uint32_t`, which keeps its low 32 bits.
   */
  method CreateSwapchainInfo(info: GraphicsDeviceInfo, caps: SurfaceCapabilities, surfaceWidth: nat, surfaceHeight: nat)
    returns (ci: SwapchainCreateInfo)
    requires |info.surfaceFormats| > 0
    ensures PREFERRED_FORMAT in info.surfaceFormats ==> ci.format == PREFERRED_FORMAT
    ensures PREFERRED_FORMAT !in info.surfaceFormats ==> ci.format == info.surfaceFormats[0]
    ensures ci.presentMode == PickPresentMode(info.presentModes)
    ensures ci.minImageCount == ImageCount(caps)
    ensures ci.extent == PickSwapchainExtent(caps,
      Extent2D(surfaceWidth % 0x1_0000_0000, surfaceHeight % 0x1_0000_0000))
    ensures ci.sharing == ImageSharing(info.graphicsFamily, info.presentFamily)
  {
    var format := PickSurfaceFormat(info.surfaceFormats);
    var presentMode := PickPresentMode(info.presentModes);
    var desired := Extent2D(surfaceWidth % 0x1_0000_0000, surfaceHeight % 0x1_0000_0000);
    ci := SwapchainCreateInfo(ImageCount(caps), format, PickSwapchainExtent(caps, desired),
      presentMode, ImageSharing(info.graphicsFamily, info.presentFamily));
  }

  // ----- properties

  /**
   * A device is compatible exactly when it has a graphics family, a family
   * that can present to the surface, every required extension and at least
   * one surface format and present mode; the families recorded are the last
   * of each kind.
   */
  lemma {:induction false} CompatibleInfoMeaning(d: PhysicalDevice, required: seq<string>)
    ensures CompatibleInfo(d, required).Some? <==>
      (exists k :: 0 <= k < |d.queueFamilies| && IsGraphics(d.queueFamilies[k])) &&
      (exists k :: 0 <= k < |d.queueFamilies| && d.queueFamilies[k].canPresent) &&
      (forall e :: e in required ==> e in d.extensions) &&
      d.surfaceFormats != [] && d.presentModes != []
    ensures CompatibleInfo(d, required).Some? ==> (
      var info, fams := CompatibleInfo(d, required).value, d.queueFamilies;
      info.device == d && info.surfaceFormats == d.surfaceFormats && info.presentModes == d.presentModes &&
      info.graphicsFamily < |fams| && IsGraphics(fams[info.graphicsFamily]) &&
      (forall k :: info.graphicsFamily < k < |fams| ==> !IsGraphics(fams[k])) &&
      info.graphicsCount == fams[info.graphicsFamily].queueCount &&
      info.presentFamily < |fams| && fams[info.presentFamily].canPresent &&
      (forall k :: info.presentFamily < k < |fams| ==> !fams[k].canPresent) &&
      info.presentCount == fams[info.presentFamily].queueCount)
  {
  }

  /** One more family: it is the last match when it matches, otherwise the last match stays. */
  lemma {:induction false} LastWithStep(fams: seq<QueueFamily>, i: nat, p: QueueFamily -> bool)
    requires i < |fams|
    ensures LastWith(fams[..i + 1], p) == if p(fams[i]) then Some(i) else LastWith(fams[..i], p)
  {
    assert fams[..i + 1][..i] == fams[..i];
  }

  /** One more element of `s` after the prefix `a`. */
  lemma {:induction false} SliceStep<T>(a: seq<T>, s: seq<T>, j: nat)
    requires j < |s|
    ensures a + s[..j + 1] == (a + s[..j]) + [s[j]]
  {
    assert s[..j + 1] == s[..j] + [s[j]];
  }

  /** The devices of the first g + 1 groups are those of the first g followed by group g. */
  lemma {:induction false} FlattenStep(groups: seq<seq<PhysicalDevice>>, g: nat)
    requires g < |groups|
    ensures Flatten(groups[..g + 1]) == Flatten(groups[..g]) + groups[g][..|groups[g]|]
  {
    assert groups[..g + 1][..g] == groups[..g];
    assert groups[g][..|groups[g]|] == groups[g];
  }

  /** The information for a device appended to a list is appended to the list's. */
  lemma {:induction false} InfosAppend(ds: seq<PhysicalDevice>, d: PhysicalDevice, required: seq<string>)
    ensures Infos(ds + [d], required) == Infos(ds, required) + [CompatibleInfo(d, required)]
  {
    assert (ds + [d])[..|ds|] == ds;
  }

  /** Appending an option appends its value, if any, to the values. */
  lemma {:induction false} SomesAppend<T>(xs: seq<Option<T>>, x: Option<T>)
    ensures Somes(xs + [x]) == Somes(xs) + (if x.Some? then [x.value] else [])
  {
    assert (xs + [x])[..|xs|] == xs;
  }

  /** There are no values exactly when every option is empty, and the first value is that of the first full option. */
  lemma {:induction false} SomesFirst<T>(xs: seq<Option<T>>)
    ensures Somes(xs) == [] <==> forall k :: 0 <= k < |xs| ==> xs[k].None?
    ensures Somes(xs) != [] ==>
      exists k :: 0 <= k < |xs| && xs[k] == Some(Somes(xs)[0]) && (forall j :: 0 <= j < k ==> xs[j].None?)
  {
    if xs != [] {
      var init := xs[..|xs| - 1];
      SomesFirst(init);
      assert forall k :: 0 <= k < |init| ==> xs[k] == init[k];
    }
  }

  /**
   * The queue family recorded for graphics on a compatible device is one
   * whose type is reported as a graphics queue.
   */
  lemma {:induction false} GraphicsFamilyIsGraphicsType(d: PhysicalDevice, required: seq<string>)
    requires CompatibleInfo(d, required).Some?
    ensures var g := CompatibleInfo(d, required).value.graphicsFamily;
      g < |d.queueFamilies| &&
      QueueFamilyType(d.queueFamilies[g].flags) in {Some("graphics"), Some("graphics & compute")}
  {
    CompatibleInfoMeaning(d, required);
  }
}
