/**
 * `Sidebar.Core.CompositionManager`: decides which compositor blur the running
 * Windows version supports, asks DWM and user32 for it on a window, reads back the
 * colorization colour, and reacts to the two DWM notifications that arrive through
 * the window procedure.
 *
 * The static class becomes a module. Its methods take the platform they talk to
 * (see `Native.Platform`) and the version of the running system as parameters; its
 * static event becomes an object of class `ColorizationColorChangedEvent`.
 */
module CompositionManager {
  import opened Numeric
  import opened Argb
  import opened Native

  /** `Environment.OSVersion.Version`: major, minor and build numbers. */
  datatype OsVersion = OsVersion(major: int, minor: int, build: int)

  /**
   * Legacy (Aero) blur behind a window: withdrawn on every 6.x release after 6.1
   * (Windows 8 and 8.1), available on every other version, older or newer.
   */
  predicate IsBlurAvailable(os: OsVersion)
  {
    if os.major == 6 && os.minor > 1 then false else true
  }

  /** Acrylic blur: only major version 10, from build 17134 on. */
  predicate IsAcrylicBlurAvailable(os: OsVersion)
  {
    if os.major == 10 && os.build >= 17134 then true else false
  }

  /** `(0 << 24) | 0xFFFFFF`: alpha 0 over white, the gradient colour sent with the accent policy. */
  const AcrylicGradientColor: Int32 := 0x00FF_FFFF

  /** The accent policy the acrylic path copies into unmanaged memory. */
  function AcrylicAccent(enabled: bool): (accent: AccentPolicy)
    ensures accent.accentState == AccentEnableAcrylicBlurBehind <==> enabled
    ensures accent.accentFlags == 0 && accent.animationId == 0
    ensures FromArgb(accent.gradientColor).A() == 0
  {
    ChannelsOfPack(0, 0xFF, 0xFF, 0xFF);
    DefaultAccentPolicy.(
      accentState := if enabled then AccentEnableAcrylicBlurBehind else AccentDisabled,
      gradientColor := AcrylicGradientColor)
  }

  /** The blur-behind record the legacy path passes: whole window, no region. */
  function LegacyBlurBehind(enabled: bool): (blurBehind: BlurBehind)
    ensures blurBehind.enabled == enabled && blurBehind.region == 0
    ensures blurBehind.flags & DwmBbEnable != 0 && blurBehind.flags & DwmBbBlurRegion != 0
    ensures blurBehind.flags & !(DwmBbEnable | DwmBbBlurRegion) == 0
  {
    BlurBehind(DwmBbEnable | DwmBbBlurRegion, enabled, 0)
  }

  /** The DWM and user32 calls one `SetBlurBehindWindow` issues, in the order it issues them. */
  function BlurRequestCalls(os: OsVersion, handle: Handle, enabled: bool): (calls: seq<Call>)
  {
    (if IsAcrylicBlurAvailable(os)
     then [Call.SetWindowCompositionAttribute(handle, WcaAccentPolicy, AccentPolicySize, AccentPolicySize, AcrylicAccent(enabled))]
     else [])
    + (if IsBlurAvailable(os) then [Call.DwmEnableBlurBehindWindow(handle, LegacyBlurBehind(enabled))] else [])
  }

  /** 1 when the acrylic path allocates its buffer, 0 otherwise. */
  function AccentBuffers(os: OsVersion): nat
  {
    if IsAcrylicBlurAvailable(os) then 1 else 0
  }

  /**
   * The effect of one `SetBlurBehindWindow` on the platform: exactly the calls of
   * `BlurRequestCalls`, and every buffer it allocated is freed again.
   */
  twostate predicate BlurRequested(p: Platform, os: OsVersion, handle: Handle, enabled: bool)
    reads p
  {
    && p.trace == old(p.trace) + BlurRequestCalls(os, handle, enabled)
    && p.blocks == old(p.blocks)
    && p.memory == old(p.memory)
    && p.allocations == old(p.allocations) + AccentBuffers(os)
    && p.frees == old(p.frees) + AccentBuffers(os)
    && p.nextPtr >= old(p.nextPtr)
    && p.SameAnswers()
  }

  /**
   * `SetBlurBehindWindow`: on acrylic-capable systems sends the accent policy through
   * a temporary unmanaged buffer, then on legacy-capable systems asks for blur
   * behind the window. Only a failing legacy call makes it return false.
   */
  method SetBlurBehindWindow(p: Platform, os: OsVersion, handle: Handle, enabled: bool) returns (ok: bool)
    requires p.Valid()
    modifies p
    ensures p.Valid()
    ensures BlurRequested(p, os, handle, enabled)
    ensures ok <==> !(IsBlurAvailable(os) && p.blurStatus != 0)
  {
    if IsAcrylicBlurAvailable(os) {
      var accent := DefaultAccentPolicy;
      accent := accent.(accentState := AccentDisabled);
      if enabled {
        accent := accent.(accentState := AccentEnableAcrylicBlurBehind);
      }
      accent := accent.(gradientColor := AcrylicGradientColor);

      var accentStructSize := AccentPolicySize;
      var accentPtr := p.AllocHGlobal(accentStructSize);
      p.StructureToPtr(accent, accentPtr);

      var data := WindowCompositionAttributeData(WcaAccentPolicy, accentPtr, accentStructSize);
      var _ := p.SetWindowCompositionAttribute(handle, data);

      p.FreeHGlobal(accentPtr);
      assert p.blocks == old(p.blocks) && p.memory == old(p.memory);
    }

    if IsBlurAvailable(os) {
      var bb := BlurBehind(DwmBbEnable | DwmBbBlurRegion, enabled, 0);
      var status := p.DwmEnableBlurBehindWindow(handle, bb);
      if status != 0 {
        return false;
      }
    }

    return true;
  }

  /** `EnableBlurBehindWindow`: `SetBlurBehindWindow` with `enabled` true. */
  method EnableBlurBehindWindow(p: Platform, os: OsVersion, handle: Handle) returns (ok: bool)
    requires p.Valid()
    modifies p
    ensures p.Valid()
    ensures BlurRequested(p, os, handle, true)
    ensures ok <==> !(IsBlurAvailable(os) && p.blurStatus != 0)
  {
    ok := SetBlurBehindWindow(p, os, handle, true);
  }

  /** `DisableBlurBehindWindow`: `SetBlurBehindWindow` with `enabled` false. */
  method DisableBlurBehindWindow(p: Platform, os: OsVersion, handle: Handle) returns (ok: bool)
    requires p.Valid()
    modifies p
    ensures p.Valid()
    ensures BlurRequested(p, os, handle, false)
    ensures ok <==> !(IsBlurAvailable(os) && p.blurStatus != 0)
  {
    ok := SetBlurBehindWindow(p, os, handle, false);
  }

  /**
   * Enabling and then disabling blur on a window: each call allocates and frees its
   * own buffer, so no unmanaged memory is left behind.
   */
  method BlurToggleLeaksNothing(p: Platform, os: OsVersion, handle: Handle)
    requires p.Valid()
    modifies p
    ensures p.Valid()
    ensures p.trace == old(p.trace) + BlurRequestCalls(os, handle, true) + BlurRequestCalls(os, handle, false)
    ensures p.blocks == old(p.blocks) && p.memory == old(p.memory)
    ensures p.allocations - p.frees == old(p.allocations) - old(p.frees)
    ensures p.allocations == old(p.allocations) + 2 * AccentBuffers(os)
  {
    var _ := EnableBlurBehindWindow(p, os, handle);
    var _ := DisableBlurBehindWindow(p, os, handle);
  }

  /** What a window attribute call leaves untouched: everything but the trace. */
  twostate predicate OnlyTraceGrew(p: Platform)
    reads p
  {
    && p.blocks == old(p.blocks) && p.memory == old(p.memory) && p.nextPtr == old(p.nextPtr)
    && p.allocations == old(p.allocations) && p.frees == old(p.frees)
    && p.SameAnswers()
  }

  /** `ExcludeFromPeek`: one `DwmSetWindowAttribute` setting the peek exclusion to 1. */
  method ExcludeFromPeek(p: Platform, handle: Handle)
    requires p.Valid()
    modifies p
    ensures p.Valid() && OnlyTraceGrew(p)
    ensures p.trace == old(p.trace) + [Call.DwmSetWindowAttribute(handle, ExcludedFromPeek, 1, UIntSize)]
  {
    var attributeValue := 1;
    p.DwmSetWindowAttribute(handle, ExcludedFromPeek, attributeValue, UIntSize);
  }

  /** `ExcludeFromFlip3D`: one `DwmSetWindowAttribute` setting the Flip3D policy to exclude-below. */
  method ExcludeFromFlip3D(p: Platform, handle: Handle)
    requires p.Valid()
    modifies p
    ensures p.Valid() && OnlyTraceGrew(p)
    ensures p.trace == old(p.trace) + [Call.DwmSetWindowAttribute(handle, Flip3DPolicy, Flip3DExcludeBelow, UIntSize)]
  {
    var attributeValue := Flip3DExcludeBelow;
    p.DwmSetWindowAttribute(handle, Flip3DPolicy, attributeValue, UIntSize);
  }

  /**
   * The channel split of `ColorizationColor`: the packed value through
   * `System.Drawing.Color.FromArgb` and its A, R, G, B into a media colour.
   */
  function MediaColorOf(argb: Int32): (color: MediaColor)
    ensures Pack(color.a, color.r, color.g, color.b) == AsUnsigned(argb)
  {
    var drawing := FromArgb(argb);
    ChannelsRepack(drawing);
    MediaColor(drawing.A(), drawing.R(), drawing.G(), drawing.B())
  }

  /**
   * `ColorizationColor`: asks DWM for the colorization colour and returns its four
   * channels unchanged; the opaque-blend flag is read and dropped.
   */
  method ColorizationColor(p: Platform) returns (color: MediaColor)
    requires p.Valid()
    modifies p
    ensures p.Valid() && OnlyTraceGrew(p)
    ensures p.trace == old(p.trace) + [Call.DwmGetColorizationColor]
    ensures color == MediaColorOf(p.colorization)
    ensures Pack(color.a, color.r, color.g, color.b) == AsUnsigned(p.colorization)
  {
    var argb, opaqueFlag := p.DwmGetColorizationColor();
    var drawingColor := FromArgb(argb);
    color := MediaColor(drawingColor.A(), drawingColor.R(), drawingColor.G(), drawingColor.B());
  }

  /** A subscribed delegate, by identity. */
  type Handler = nat

  /** The `sender` an event handler receives. */
  datatype Sender = NullSender | SenderObject(id: nat)

  /** The `EventArgs` an event handler receives. */
  datatype EventArgs = EmptyEventArgs | OtherEventArgs(id: nat)

  /** One call of one handler. */
  datatype Invocation = Invocation(handler: Handler, sender: Sender, args: EventArgs)

  /** Raising an event calls every handler once, in subscription order, with the same arguments. */
  function Fanout(handlers: seq<Handler>, sender: Sender, args: EventArgs): (invocations: seq<Invocation>)
    ensures |invocations| == |handlers|
    ensures forall i | 0 <= i < |handlers| :: invocations[i] == Invocation(handlers[i], sender, args)
  {
    if handlers == [] then []
    else [Invocation(handlers[0], sender, args)] + Fanout(handlers[1..], sender, args)
  }

  /** `-=` on an event: drops the last subscription of the handler, if there is one. */
  function RemoveLast(handlers: seq<Handler>, h: Handler): (rest: seq<Handler>)
    ensures |rest| == if h in handlers then |handlers| - 1 else |handlers|
  {
    if handlers == [] then []
    else
      var n := |handlers| - 1;
      assert handlers == handlers[..n] + [handlers[n]];
      if handlers[n] == h then handlers[..n]
      else RemoveLast(handlers[..n], h) + [handlers[n]]
  }

  /**
   * The static `ColorizationColorChanged` event: its subscribers, and the handler
   * calls it has delivered so far.
   */
  class ColorizationColorChangedEvent {
    var handlers: seq<Handler>
    var delivered: seq<Invocation>

    constructor ()
      ensures handlers == [] && delivered == []
    {
      handlers := [];
      delivered := [];
    }

    /** `ColorizationColorChanged += h` */
    method Add(h: Handler)
      modifies this
      ensures handlers == old(handlers) + [h] && delivered == old(delivered)
    {
      handlers := handlers + [h];
    }

    /** `ColorizationColorChanged -= h` */
    method Remove(h: Handler)
      modifies this
      ensures handlers == RemoveLast(old(handlers), h) && delivered == old(delivered)
    {
      handlers := RemoveLast(handlers, h);
    }

    /** `ColorizationColorChanged(sender, args)`: invoking a null event would throw, so there must be a subscriber. */
    method Invoke(sender: Sender, args: EventArgs)
      requires handlers != []
      modifies this
      ensures handlers == old(handlers)
      ensures delivered == old(delivered) + Fanout(handlers, sender, args)
    {
      delivered := delivered + Fanout(handlers, sender, args);
    }
  }

  /** `WM_DWMCOMPOSITIONCHANGED` */
  const WmDwmCompositionChanged: int := 0x031E
  /** `WM_DWMCOLORIZATIONCOLORCHANGED` */
  const WmDwmColorizationColorChanged: int := 0x0320

  /**
   * `WndProc`: on a composition change re-applies blur (enable when legacy blur is
   * available, disable otherwise); on a colorization change raises the event with a
   * null sender and empty arguments when anyone subscribed; ignores every other
   * message. Always returns `IntPtr.Zero` and never assigns `handled`.
   */
  method WndProc(p: Platform, colorizationColorChanged: ColorizationColorChangedEvent, os: OsVersion,
                 hWnd: Handle, msg: Int32, wParam: int, lParam: int, handled: bool)
    returns (result: Handle, handledOut: bool)
    requires p.Valid()
    modifies p, colorizationColorChanged
    ensures p.Valid()
    ensures result == 0 && handledOut == handled
    ensures msg == WmDwmCompositionChanged ==> BlurRequested(p, os, hWnd, IsBlurAvailable(os))
    ensures msg != WmDwmCompositionChanged ==> unchanged(p)
    ensures colorizationColorChanged.handlers == old(colorizationColorChanged.handlers)
    ensures colorizationColorChanged.delivered == old(colorizationColorChanged.delivered) +
      (if msg == WmDwmColorizationColorChanged
       then Fanout(old(colorizationColorChanged.handlers), NullSender, EmptyEventArgs)
       else [])
  {
    if msg == WmDwmCompositionChanged {
      if IsBlurAvailable(os) {
        var _ := EnableBlurBehindWindow(p, os, hWnd);
      } else {
        var _ := DisableBlurBehindWindow(p, os, hWnd);
      }
    }

    if msg == WmDwmColorizationColorChanged {
      if colorizationColorChanged.handlers != [] {
        colorizationColorChanged.Invoke(NullSender, EmptyEventArgs);
      }
    }

    return 0, handled;
  }
}
