/**
 * The native side of the composition manager: the fixed-layout records it hands to
 * the Desktop Window Manager (DWM) and to user32, and an abstract platform that
 * stands for those libraries and for the unmanaged heap of `Marshal`.
 *
 * The platform keeps a trace of the DWM and user32 calls it receives, the blocks of
 * unmanaged memory that are currently allocated (with their sizes and what was
 * copied into them), and counters of allocations and frees. What the native calls
 * return is the platform's current state, which the environment can change between
 * calls (the user picks another colour, DWM starts refusing blur).
 */
module Native {
  import opened Numeric

  /** A window handle (`IntPtr hWnd`); 0 is `IntPtr.Zero`. */
  type Handle = int

  /** An address in the unmanaged heap; 0 is `IntPtr.Zero`. */
  type Ptr = nat

  /** `WindowCompositionAttribute.WCA_ACCENT_POLICY`. */
  const WcaAccentPolicy: int := 19

  /** The accent states the composition manager asks for. */
  datatype AccentState = AccentDisabled | AccentEnableAcrylicBlurBehind

  /** `AccentPolicy`: four 4-byte fields. */
  datatype AccentPolicy = AccentPolicy(
    accentState: AccentState,
    accentFlags: int,
    gradientColor: Int32,
    animationId: int)

  /** `Marshal.SizeOf` of an `AccentPolicy`: four 4-byte fields, no padding. */
  const AccentPolicySize: nat := 16

  /** The record a new `AccentPolicy` starts as: every field zero, so the state is disabled. */
  const DefaultAccentPolicy := AccentPolicy(AccentDisabled, 0, 0, 0)

  /** `WindowCompositionAttributeData`: which attribute, where its payload lives and how big it is. */
  datatype WindowCompositionAttributeData = WindowCompositionAttributeData(
    attribute: int,
    data: Ptr,
    sizeOfData: int)

  /** `BlurBehindFlags`: bit 0 enables, bit 1 says a blur region is given. */
  const DwmBbEnable: bv32 := 1
  const DwmBbBlurRegion: bv32 := 2

  /** `BlurBehind` (`DWM_BLURBEHIND`). */
  datatype BlurBehind = BlurBehind(flags: bv32, enabled: bool, region: Handle)

  /** The two `DwmWindowAttribute` values the composition manager sets. */
  datatype DwmWindowAttribute = ExcludedFromPeek | Flip3DPolicy

  /** `Flip3DPolicy.ExcludeBelow` (`DWMFLIP3D_EXCLUDEBELOW`). */
  const Flip3DExcludeBelow: int := 1

  /** `sizeof(uint)`. */
  const UIntSize: int := 4

  /**
   * One call received by DWM or user32, with what it could observe: for the
   * composition attribute, the size announced in the envelope, the size of the
   * block the envelope points to, and the record stored there.
   */
  datatype Call =
    | SetWindowCompositionAttribute(hwnd: Handle, attribute: int, sizeOfData: int, blockSize: nat, accent: AccentPolicy)
    | DwmEnableBlurBehindWindow(hwnd: Handle, blurBehind: BlurBehind)
    | DwmSetWindowAttribute(hwnd: Handle, dwAttribute: DwmWindowAttribute, attributeValue: int, cbAttribute: int)
    | DwmGetColorizationColor

  class Platform {
    /** The DWM and user32 calls received so far, oldest first. */
    var trace: seq<Call>
    /** Live unmanaged blocks and their sizes. */
    var blocks: map<Ptr, nat>
    /** The records copied into live blocks with `StructureToPtr`. */
    var memory: map<Ptr, AccentPolicy>
    /** Every address at or above this one is unused. */
    var nextPtr: Ptr
    var allocations: nat
    var frees: nat

    /** What `DwmEnableBlurBehindWindow` returns now (an HRESULT; 0 is success). */
    var blurStatus: Int32
    /** What `SetWindowCompositionAttribute` returns now. */
    var compositionResult: bool
    /** The packed colour and the opaque flag `DwmGetColorizationColor` reports now. */
    var colorization: Int32
    var opaqueBlend: bool

    /** None of the platform's answers changed: only the environment changes them. */
    twostate predicate SameAnswers()
      reads this
    {
      && blurStatus == old(blurStatus) && compositionResult == old(compositionResult)
      && colorization == old(colorization) && opaqueBlend == old(opaqueBlend)
    }

    ghost predicate Valid()
      reads this
    {
      && 0 < nextPtr
      && (forall p | p in blocks :: 0 < p < nextPtr)
      && memory.Keys <= blocks.Keys
      && allocations == frees + |blocks.Keys|
    }

    constructor (blurStatus: Int32, compositionResult: bool, colorization: Int32, opaqueBlend: bool)
      ensures Valid()
      ensures trace == [] && blocks == map[] && memory == map[]
      ensures allocations == 0 && frees == 0
      ensures this.blurStatus == blurStatus && this.compositionResult == compositionResult
      ensures this.colorization == colorization && this.opaqueBlend == opaqueBlend
    {
      trace := [];
      blocks := map[];
      memory := map[];
      nextPtr := 1;
      allocations := 0;
      frees := 0;
      this.blurStatus := blurStatus;
      this.compositionResult := compositionResult;
      this.colorization := colorization;
      this.opaqueBlend := opaqueBlend;
    }

    /** `Marshal.AllocHGlobal`: a new block, distinct from every live one. */
    method AllocHGlobal(size: nat) returns (ptr: Ptr)
      requires Valid()
      modifies this
      ensures Valid() && SameAnswers()
      ensures ptr != 0 && ptr !in old(blocks)
      ensures blocks == old(blocks)[ptr := size] && memory == old(memory)
      ensures allocations == old(allocations) + 1 && frees == old(frees)
      ensures trace == old(trace) && nextPtr > old(nextPtr)
    {
      ptr := nextPtr;
      assert blocks[ptr := size].Keys == blocks.Keys + {ptr};
      blocks := blocks[ptr := size];
      nextPtr := nextPtr + 1;
      allocations := allocations + 1;
    }

    /** `Marshal.StructureToPtr`: copies the record into a live block large enough for it. */
    method StructureToPtr(accent: AccentPolicy, ptr: Ptr)
      requires Valid() && ptr in blocks && AccentPolicySize <= blocks[ptr]
      modifies this
      ensures Valid() && SameAnswers()
      ensures memory == old(memory)[ptr := accent]
      ensures blocks == old(blocks) && allocations == old(allocations) && frees == old(frees)
      ensures trace == old(trace) && nextPtr == old(nextPtr)
    {
      memory := memory[ptr := accent];
    }

    /** `Marshal.FreeHGlobal`: releases a live block. */
    method FreeHGlobal(ptr: Ptr)
      requires Valid() && ptr in blocks
      modifies this
      ensures Valid() && SameAnswers()
      ensures blocks == old(blocks) - {ptr} && memory == old(memory) - {ptr}
      ensures allocations == old(allocations) && frees == old(frees) + 1
      ensures trace == old(trace) && nextPtr == old(nextPtr)
    {
      assert (blocks - {ptr}).Keys + {ptr} == blocks.Keys;
      blocks := blocks - {ptr};
      memory := memory - {ptr};
      frees := frees + 1;
    }

    /**
     * user32 `SetWindowCompositionAttribute`: the payload the envelope points to must
     * be live and initialised for the duration of the call.
     */
    method SetWindowCompositionAttribute(hwnd: Handle, data: WindowCompositionAttributeData) returns (ok: bool)
      requires Valid() && data.data in memory
      modifies this
      ensures Valid() && SameAnswers()
      ensures blocks == old(blocks) && memory == old(memory) && nextPtr == old(nextPtr)
      ensures allocations == old(allocations) && frees == old(frees)
      ensures trace == old(trace) + [Call.SetWindowCompositionAttribute(
        hwnd, data.attribute, data.sizeOfData, blocks[data.data], memory[data.data])]
      ensures ok == compositionResult
    {
      trace := trace + [Call.SetWindowCompositionAttribute(
        hwnd, data.attribute, data.sizeOfData, blocks[data.data], memory[data.data])];
      ok := compositionResult;
    }

    /** dwmapi `DwmEnableBlurBehindWindow`. */
    method DwmEnableBlurBehindWindow(hwnd: Handle, blurBehind: BlurBehind) returns (status: Int32)
      requires Valid()
      modifies this
      ensures Valid() && SameAnswers()
      ensures trace == old(trace) + [Call.DwmEnableBlurBehindWindow(hwnd, blurBehind)]
      ensures status == blurStatus
      ensures blocks == old(blocks) && memory == old(memory) && nextPtr == old(nextPtr)
      ensures allocations == old(allocations) && frees == old(frees)
    {
      trace := trace + [Call.DwmEnableBlurBehindWindow(hwnd, blurBehind)];
      status := blurStatus;
    }

    /** dwmapi `DwmSetWindowAttribute`; its HRESULT is never read by the composition manager. */
    method DwmSetWindowAttribute(hwnd: Handle, dwAttribute: DwmWindowAttribute, attributeValue: int, cbAttribute: int)
      requires Valid()
      modifies this
      ensures Valid() && SameAnswers()
      ensures trace == old(trace) + [Call.DwmSetWindowAttribute(hwnd, dwAttribute, attributeValue, cbAttribute)]
      ensures blocks == old(blocks) && memory == old(memory) && nextPtr == old(nextPtr)
      ensures allocations == old(allocations) && frees == old(frees)
    {
      trace := trace + [Call.DwmSetWindowAttribute(hwnd, dwAttribute, attributeValue, cbAttribute)];
    }

    /** dwmapi `DwmGetColorizationColor`: the packed colour and the opaque-blend flag. */
    method DwmGetColorizationColor() returns (color: Int32, opaqueFlag: bool)
      requires Valid()
      modifies this
      ensures Valid() && SameAnswers()
      ensures trace == old(trace) + [Call.DwmGetColorizationColor]
      ensures color == colorization && opaqueFlag == opaqueBlend
      ensures blocks == old(blocks) && memory == old(memory) && nextPtr == old(nextPtr)
      ensures allocations == old(allocations) && frees == old(frees)
    {
      trace := trace + [Call.DwmGetColorizationColor];
      color, opaqueFlag := colorization, opaqueBlend;
    }

    /** The environment: the user picks another colour or DWM changes its blend mode. */
    method ChangeColorization(color: Int32, opaqueFlag: bool)
      requires Valid()
      modifies this
      ensures Valid()
      ensures colorization == color && opaqueBlend == opaqueFlag
      ensures blurStatus == old(blurStatus) && compositionResult == old(compositionResult)
      ensures trace == old(trace) && blocks == old(blocks) && memory == old(memory) && nextPtr == old(nextPtr)
      ensures allocations == old(allocations) && frees == old(frees)
    {
      colorization, opaqueBlend := color, opaqueFlag;
    }

    /** The environment: DWM starts answering blur-behind requests with another status. */
    method SetBlurStatus(status: Int32)
      requires Valid()
      modifies this
      ensures Valid()
      ensures blurStatus == status
      ensures compositionResult == old(compositionResult)
      ensures colorization == old(colorization) && opaqueBlend == old(opaqueBlend)
      ensures trace == old(trace) && blocks == old(blocks) && memory == old(memory) && nextPtr == old(nextPtr)
      ensures allocations == old(allocations) && frees == old(frees)
    {
      blurStatus := status;
    }

    /** The environment: user32 starts answering composition-attribute calls differently. */
    method SetCompositionResult(result: bool)
      requires Valid()
      modifies this
      ensures Valid()
      ensures compositionResult == result
      ensures blurStatus == old(blurStatus)
      ensures colorization == old(colorization) && opaqueBlend == old(opaqueBlend)
      ensures trace == old(trace) && blocks == old(blocks) && memory == old(memory) && nextPtr == old(nextPtr)
      ensures allocations == old(allocations) && frees == old(frees)
    {
      compositionResult := result;
    }
  }
}
