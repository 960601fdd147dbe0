/**
 * What the composition manager promises, stated over the functions that specify its
 * methods: the capability windows, the calls one blur request issues, the
 * colorization colour's channels, and the event's subscriber list.
 */
module CompositionProperties {
  import opened Numeric
  import opened Argb
  import opened Native
  import opened CompositionManager

  // ---------------------------------------------------------------------------
  // Capability windows

  /** Legacy blur is missing exactly on 6.x with minor version above 1. */
  lemma LegacyBlurWindow(os: OsVersion)
    ensures !IsBlurAvailable(os) <==> os.major == 6 && os.minor > 1
  {
  }

  /** Newer is not better: 6.1 has legacy blur, 6.2 and 6.3 lose it, 10.0 has it again. */
  lemma LegacyBlurNotMonotonic()
    ensures IsBlurAvailable(OsVersion(6, 0, 6000)) && IsBlurAvailable(OsVersion(6, 1, 7601))
    ensures !IsBlurAvailable(OsVersion(6, 2, 9200)) && !IsBlurAvailable(OsVersion(6, 3, 9600))
    ensures IsBlurAvailable(OsVersion(10, 0, 10240)) && IsBlurAvailable(OsVersion(5, 1, 2600))
  {
  }

  /** On major version 10 acrylic starts at build 17134, whatever the minor version. */
  lemma AcrylicBuildFloor(minor: int, build: int)
    ensures IsAcrylicBlurAvailable(OsVersion(10, minor, build)) <==> build >= 17134
  {
  }

  /** No other major version has acrylic, and no later build of major 10 loses it. */
  lemma AcrylicOnlyOnMajorTen(os: OsVersion, later: OsVersion)
    ensures IsAcrylicBlurAvailable(os) ==> os.major == 10
    ensures IsAcrylicBlurAvailable(os) && later.major == 10 && later.build >= os.build
            ==> IsAcrylicBlurAvailable(later)
  {
  }

  /** Every acrylic-capable system also has legacy blur, so both requests go out there. */
  lemma AcrylicImpliesLegacy(os: OsVersion)
    ensures IsAcrylicBlurAvailable(os) ==> IsBlurAvailable(os)
  {
  }

  // ---------------------------------------------------------------------------
  // Counting calls in a trace

  predicate IsCompositionCall(c: Call) { c.SetWindowCompositionAttribute? }
  predicate IsLegacyBlurCall(c: Call) { c.DwmEnableBlurBehindWindow? }

  /** The number of calls of one kind. */
  function Count(calls: seq<Call>, isKind: Call -> bool): (n: nat)
    ensures n <= |calls|
    ensures n == 0 <==> forall c | c in calls :: !isKind(c)
  {
    if calls == [] then 0
    else (if isKind(calls[0]) then 1 else 0) + Count(calls[1..], isKind)
  }

  lemma {:induction false} CountAppend(a: seq<Call>, b: seq<Call>, isKind: Call -> bool)
    ensures Count(a + b, isKind) == Count(a, isKind) + Count(b, isKind)
  {
    if a == [] {
      assert a + b == b;
    } else {
      assert (a + b)[1..] == a[1..] + b;
      CountAppend(a[1..], b, isKind);
    }
  }

  // ---------------------------------------------------------------------------
  // One blur request

  /**
   * The acrylic request: exactly one composition-attribute call when acrylic is
   * available and none otherwise, carrying the accent policy for the requested
   * state, the alpha-0 white gradient, and a size equal to its buffer's.
   */
  lemma CompositionRequest(os: OsVersion, handle: Handle, enabled: bool)
    ensures var calls := BlurRequestCalls(os, handle, enabled);
      && Count(calls, IsCompositionCall) == (if IsAcrylicBlurAvailable(os) then 1 else 0)
      && forall c | c in calls && c.SetWindowCompositionAttribute? ::
           && c.hwnd == handle
           && c.attribute == WcaAccentPolicy
           && c.sizeOfData == c.blockSize == AccentPolicySize
           && c.accent.accentState == (if enabled then AccentEnableAcrylicBlurBehind else AccentDisabled)
           && c.accent.gradientColor == 0x00FF_FFFF
  {
  }

  /**
   * The legacy request: exactly one blur-behind call when legacy blur is available
   * and none otherwise, with the requested state, both flags and no region.
   */
  lemma LegacyRequest(os: OsVersion, handle: Handle, enabled: bool)
    ensures var calls := BlurRequestCalls(os, handle, enabled);
      && Count(calls, IsLegacyBlurCall) == (if IsBlurAvailable(os) then 1 else 0)
      && forall c | c in calls && c.DwmEnableBlurBehindWindow? ::
           && c.hwnd == handle
           && c.blurBehind.enabled == enabled
           && c.blurBehind.flags == DwmBbEnable | DwmBbBlurRegion
           && c.blurBehind.region == 0
  {
  }

  /** A blur request makes no call other than these two kinds, and the legacy one comes last. */
  lemma RequestOrder(os: OsVersion, handle: Handle, enabled: bool)
    ensures var calls := BlurRequestCalls(os, handle, enabled);
      && |calls| == Count(calls, IsCompositionCall) + Count(calls, IsLegacyBlurCall)
      && (IsAcrylicBlurAvailable(os) && IsBlurAvailable(os) ==>
            calls[0].SetWindowCompositionAttribute? && calls[1].DwmEnableBlurBehindWindow?)
  {
    CompositionRequest(os, handle, enabled);
    LegacyRequest(os, handle, enabled);
  }

  /**
   * Enabling and then disabling blur on a window: two composition-attribute calls
   * exactly when acrylic is available, two blur-behind calls exactly when legacy
   * blur is, and nothing else.
   */
  lemma {:induction false} ToggleRequests(os: OsVersion, handle: Handle)
    ensures var calls := BlurRequestCalls(os, handle, true) + BlurRequestCalls(os, handle, false);
      && Count(calls, IsCompositionCall) == 2 * AccentBuffers(os)
      && Count(calls, IsLegacyBlurCall) == (if IsBlurAvailable(os) then 2 else 0)
      && |calls| == Count(calls, IsCompositionCall) + Count(calls, IsLegacyBlurCall)
  {
    var on, off := BlurRequestCalls(os, handle, true), BlurRequestCalls(os, handle, false);
    CompositionRequest(os, handle, true);
    CompositionRequest(os, handle, false);
    LegacyRequest(os, handle, true);
    LegacyRequest(os, handle, false);
    RequestOrder(os, handle, true);
    RequestOrder(os, handle, false);
    CountAppend(on, off, IsCompositionCall);
    CountAppend(on, off, IsLegacyBlurCall);
  }

  /** With neither capability a blur request makes no call at all. */
  lemma NoCapabilityNoCalls(os: OsVersion, handle: Handle, enabled: bool)
    requires !IsAcrylicBlurAvailable(os) && !IsBlurAvailable(os)
    ensures BlurRequestCalls(os, handle, enabled) == []
  {
  }

  /**
   * On a composition change the window procedure only ever enables: where legacy
   * blur is missing acrylic is missing too, so the disable request sends nothing.
   */
  lemma CompositionChangedOnlyEnables(os: OsVersion, handle: Handle)
    ensures var calls := BlurRequestCalls(os, handle, IsBlurAvailable(os));
      && (!IsBlurAvailable(os) ==> calls == [])
      && forall c | c in calls ::
           (c.SetWindowCompositionAttribute? ==> c.accent.accentState == AccentEnableAcrylicBlurBehind)
           && (c.DwmEnableBlurBehindWindow? ==> c.blurBehind.enabled)
  {
    AcrylicImpliesLegacy(os);
  }

  /** The gradient colour of the accent policy is white with alpha 0. */
  lemma AcrylicGradientIsTransparentWhite()
    ensures var c := FromArgb(AcrylicGradientColor);
            c.A() == 0 && c.R() == 0xFF && c.G() == 0xFF && c.B() == 0xFF
  {
    ChannelsOfPack(0, 0xFF, 0xFF, 0xFF);
  }

  // ---------------------------------------------------------------------------
  // Colorization colour

  /** The colour's channels are the packed value's bytes: A the top byte, B the bottom one. */
  lemma {:induction false} ColorChannels(a: Byte, r: Byte, g: Byte, b: Byte)
    ensures MediaColorOf(AsSigned(Pack(a, r, g, b))) == MediaColor(a, r, g, b)
  {
    ArgbRoundTrip(a, r, g, b);
  }

  /** The example of a colour 0x12345678 split into its channels. */
  lemma ColorChannelsExample()
    ensures MediaColorOf(0x1234_5678) == MediaColor(0x12, 0x34, 0x56, 0x78)
  {
    ColorChannels(0x12, 0x34, 0x56, 0x78);
  }

  /** A negative `int` carries alpha in its sign bit: -1 is opaque white. */
  lemma NegativeColorIsHighAlpha()
    ensures MediaColorOf(-1) == MediaColor(0xFF, 0xFF, 0xFF, 0xFF)
  {
    ColorChannels(0xFF, 0xFF, 0xFF, 0xFF);
  }

  // ---------------------------------------------------------------------------
  // Event subscribers

  /** Unsubscribing right after subscribing restores the subscriber list. */
  lemma RemoveUndoesAdd(handlers: seq<Handler>, h: Handler)
    ensures RemoveLast(handlers + [h], h) == handlers
  {
    assert (handlers + [h])[..|handlers|] == handlers;
  }

  /** Unsubscribing a handler that is not subscribed changes nothing. */
  lemma {:induction false} RemoveAbsent(handlers: seq<Handler>, h: Handler)
    requires h !in handlers
    ensures RemoveLast(handlers, h) == handlers
  {
    if handlers != [] {
      var n := |handlers| - 1;
      assert handlers == handlers[..n] + [handlers[n]];
      RemoveAbsent(handlers[..n], h);
    }
  }

  /** Unsubscribing removes one subscription of that handler and keeps every other one. */
  lemma {:induction false} RemoveOneSubscription(handlers: seq<Handler>, h: Handler)
    ensures multiset(RemoveLast(handlers, h)) == multiset(handlers) - multiset{h}
  {
    if handlers != [] {
      var n := |handlers| - 1;
      assert handlers == handlers[..n] + [handlers[n]];
      RemoveOneSubscription(handlers[..n], h);
    }
  }

  /**
   * Unsubscribing deletes the handler's last subscription: the one at index `i`
   * with no later occurrence, and every other subscriber keeps its place and order.
   */
  lemma {:induction false} RemoveLastDeletesLastIndex(handlers: seq<Handler>, h: Handler)
    requires h in handlers
    ensures exists i | 0 <= i < |handlers| ::
      && handlers[i] == h
      && h !in handlers[i + 1..]
      && RemoveLast(handlers, h) == handlers[..i] + handlers[i + 1..]
  {
    var n := |handlers| - 1;
    assert handlers == handlers[..n] + [handlers[n]];
    if handlers[n] == h {
      assert handlers[n + 1..] == [];
      assert RemoveLast(handlers, h) == handlers[..n] + handlers[n + 1..];
    } else {
      var prefix := handlers[..n];
      assert h in prefix;
      RemoveLastDeletesLastIndex(prefix, h);
      var i :| 0 <= i < |prefix| && prefix[i] == h && h !in prefix[i + 1..]
                && RemoveLast(prefix, h) == prefix[..i] + prefix[i + 1..];
      assert handlers[i + 1..] == prefix[i + 1..] + [handlers[n]];
      assert prefix[..i] == handlers[..i];
      assert RemoveLast(handlers, h) == handlers[..i] + handlers[i + 1..];
    }
  }

  /**
   * Two subscribers and one raise: each is called exactly once, the first
   * subscriber first, with a null sender and empty arguments.
   */
  lemma TwoSubscribersCalledInOrder(first: Handler, second: Handler)
    ensures Fanout([first, second], NullSender, EmptyEventArgs)
            == [Invocation(first, NullSender, EmptyEventArgs), Invocation(second, NullSender, EmptyEventArgs)]
  {
  }
}
