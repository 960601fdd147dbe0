# CompositionManager of the AvalonBar sidebar, in Dafny

The sidebar host draws its windows with the blur effects of the Desktop Window
Manager (DWM). `Sidebar.Core.CompositionManager` works out which blur the
running Windows version supports. It has two tests:

- legacy "Aero" blur is available everywhere except on 6.x releases after 6.1;
- acrylic blur is available on major version 10 from build 17134 on.

It then asks DWM and user32 for that blur on a window, reads the desktop
colorization colour, and reacts to two DWM notifications in its window
procedure.

The model has five modules:

- `Numeric` (numeric.dfy): 32-bit signed and unsigned integers and bytes over
  `int`, and the unchecked casts between them.
- `Argb` (argb.dfy): `System.Drawing.Color` (one packed ARGB value plus channel
  accessors) and `System.Windows.Media.Color` (four bytes). It proves that
  packing and unpacking are inverse.
- `Native` (native.dfy): the native records (`AccentPolicy`,
  `WindowCompositionAttributeData`, `BlurBehind`) and a `Platform` class that
  stands for DWM, user32 and the unmanaged heap of `Marshal`.
  - The platform records every DWM and user32 call in a trace.
  - It keeps the live unmanaged blocks (their sizes and the record copied into
    each), plus counters of allocations and frees.
  - What the native calls return (the blur status, the composition result, the
    colorization colour and its opaque flag) is the platform's current state.
    The environment methods `ChangeColorization`, `SetBlurStatus` and
    `SetCompositionResult` change it between calls. Every call the component
    makes leaves it unchanged (`SameAnswers`).
- `CompositionManager` (composition.dfy): the component itself.
  - The static class becomes a module. The running version is passed in as an
    `OsVersion` value.
  - Each operation takes the platform it talks to.
  - The static event `ColorizationColorChanged` becomes an object holding its
    subscriber list and the handler calls delivered so far.
  - The methods are proved against the specification functions
    `BlurRequestCalls`, `MediaColorOf` and `Fanout`.
- `CompositionProperties` (properties.dfy): lemmas about those functions. They
  cover the capability windows, the calls one blur request makes, the colour
  channels and the subscriber list.

## Model

| member | source | states |
|---|---|---|
| `CompositionManager.IsBlurAvailable` | src/Core/CompositionManager.cs:14-26 | the legacy-blur decision: false when the major version is 6 and the minor version is above 1, true otherwise; its properties are the two lemmas below |
| `CompositionManager.IsAcrylicBlurAvailable` | src/Core/CompositionManager.cs:28-40 | the acrylic decision: true when the major version is 10 and the build is at least 17134, false otherwise; its properties are the lemmas below |
| `CompositionManager.AcrylicAccent` | src/Core/CompositionManager.cs:55-61 | the accent state is acrylic exactly when enabling; the flags and animation id keep their zero defaults; the gradient colour has alpha 0 |
| `CompositionManager.LegacyBlurBehind` | src/Core/CompositionManager.cs:80-85 | carries the requested `Enabled` and region 0; its flags set exactly the enable and blur-region bits |
| `CompositionProperties.LegacyBlurWindow` | src/Core/CompositionManager.cs:14-26 | legacy blur is unavailable exactly when the major version is 6 and the minor version is above 1 |
| `CompositionProperties.LegacyBlurNotMonotonic` | src/Core/CompositionManager.cs:19-24 | the window is not monotonic: 6.0 and 6.1 have legacy blur, 6.2 and 6.3 do not, 10.0 (and 5.1) do |
| `CompositionProperties.AcrylicBuildFloor` | src/Core/CompositionManager.cs:28-40 | on major version 10, acrylic is available exactly from build 17134, for any minor version |
| `CompositionProperties.AcrylicOnlyOnMajorTen` | src/Core/CompositionManager.cs:33-38 | only major version 10 has acrylic, and a later build of major 10 never loses it (no upper bound) |
| `CompositionProperties.AcrylicImpliesLegacy` | src/Core/CompositionManager.cs:14-40 | every acrylic-capable version also has legacy blur, so both requests are made there |
| `CompositionManager.SetBlurBehindWindow` | src/Core/CompositionManager.cs:51-93 | the trace grows by exactly `BlurRequestCalls`; live blocks and their contents are as before; allocations and frees each grow by one exactly when acrylic is available; the result is false exactly when legacy blur is available and its call returned non-zero, whatever `SetWindowCompositionAttribute` returned |
| `CompositionManager.EnableBlurBehindWindow` | src/Core/CompositionManager.cs:41-44 | has the effect and result of `SetBlurBehindWindow` with `enabled` true |
| `CompositionManager.DisableBlurBehindWindow` | src/Core/CompositionManager.cs:46-49 | has the effect and result of `SetBlurBehindWindow` with `enabled` false |
| `CompositionManager.BlurToggleLeaksNothing` | src/Core/CompositionManager.cs:63-75 | enabling and then disabling blur issues both requests in order and leaves the live blocks, and allocations minus frees, unchanged; each request takes its own buffer |
| `CompositionProperties.CompositionRequest` | src/Core/CompositionManager.cs:53-76 | a blur request makes one `SetWindowCompositionAttribute` call when acrylic is available and none otherwise; that call targets the window, has attribute 19 (accent policy), announces a size equal to its buffer's (16 bytes), and carries accent state acrylic when enabling (disabled otherwise) with gradient 0x00FFFFFF |
| `CompositionProperties.LegacyRequest` | src/Core/CompositionManager.cs:78-90 | a blur request makes one `DwmEnableBlurBehindWindow` call when legacy blur is available and none otherwise; that call carries `Enabled = enabled`, flags enable and blur region, and region 0 |
| `CompositionProperties.RequestOrder` | src/Core/CompositionManager.cs:53-90 | a blur request makes no call of any other kind, and when both capabilities hold, the composition-attribute call comes first and the blur-behind call second |
| `CompositionProperties.ToggleRequests` | src/Core/CompositionManager.cs:41-93 | enabling then disabling blur makes two composition-attribute calls exactly when acrylic is available, two blur-behind calls exactly when legacy blur is, and no other call |
| `CompositionProperties.NoCapabilityNoCalls` | src/Core/CompositionManager.cs:51-93 | with neither capability a blur request makes no platform call (and `SetBlurBehindWindow` returns true) |
| `CompositionProperties.AcrylicGradientIsTransparentWhite` | src/Core/CompositionManager.cs:61 | the gradient colour built from alpha 0 and RGB 0xFFFFFF has alpha 0 and red, green and blue 0xFF |
| `CompositionManager.ExcludeFromPeek` | src/Core/CompositionManager.cs:95-100 | appends exactly one `DwmSetWindowAttribute(handle, ExcludedFromPeek, 1, 4)` to the trace and changes nothing else |
| `CompositionManager.ExcludeFromFlip3D` | src/Core/CompositionManager.cs:102-107 | appends exactly one `DwmSetWindowAttribute(handle, Flip3DPolicy, ExcludeBelow, 4)` to the trace and changes nothing else |
| `CompositionManager.MediaColorOf` | src/Core/CompositionManager.cs:116-118 | re-packing the four channels of the result gives the 32 bits of the colorization value |
| `CompositionManager.ColorizationColor` | src/Core/CompositionManager.cs:109-120 | makes one `DwmGetColorizationColor` call; its result is `MediaColorOf` of the reported colour, whose channels re-pack to that colour's 32 bits; the opaque flag plays no part |
| `CompositionProperties.ColorChannels` | src/Core/CompositionManager.cs:116-118 | A, R, G and B of the result are bits 24-31, 16-23, 8-15 and 0-7 of the packed value, copied unchanged |
| `CompositionProperties.ColorChannelsExample` | src/Core/CompositionManager.cs:116-118 | 0x12345678 gives A 0x12, R 0x34, G 0x56, B 0x78 |
| `CompositionProperties.NegativeColorIsHighAlpha` | src/Core/CompositionManager.cs:113-118 | a negative `int` colour keeps its top byte as alpha: -1 gives A, R, G, B all 0xFF |
| `Argb.FromArgb` | src/Core/CompositionManager.cs:116 | `Color.FromArgb(int)` keeps the 32 bits of its argument: its value is the argument modulo 2^32, and reading that back as signed gives the argument |
| `Argb.ChannelsRepack` | src/Core/CompositionManager.cs:116-118 | the four channel accessors of a drawing colour re-pack to its value |
| `Argb.ChannelsOfPack` | src/Core/CompositionManager.cs:116-118 | the channel accessors of a packed value return the four bytes it was packed from |
| `Argb.ArgbRoundTrip` | src/Core/CompositionManager.cs:113-118 | packing four bytes, reading the bits as a signed `int` and converting back with `FromArgb` returns each byte unchanged |
| `Numeric.AsUnsigned` | src/Core/CompositionManager.cs:116 | the unsigned reading of a signed 32-bit value is that value modulo 2^32 |
| `Numeric.AsSigned` | src/Core/CompositionManager.cs:113-116 | the signed reading of an unsigned 32-bit value is the one whose unsigned reading is that value |
| `Numeric.SignedUnsignedRoundTrip` | src/Core/CompositionManager.cs:113-116 | reading a signed value's bits as unsigned and back gives the value |
| `CompositionManager.Fanout` | src/Core/CompositionManager.cs:142 | raising the event calls each subscriber exactly once, in subscription order, with the given sender and arguments |
| `CompositionManager.RemoveLast` | src/Core/CompositionManager.cs:12 | unsubscribing shortens the list by one exactly when the handler was subscribed; which entry goes is stated by `RemoveLastDeletesLastIndex` |
| `CompositionManager.ColorizationColorChangedEvent.constructor` | src/Core/CompositionManager.cs:12 | the event starts with no subscribers and no deliveries |
| `CompositionManager.ColorizationColorChangedEvent.Add` | src/Core/CompositionManager.cs:12 | `+=` appends the handler and delivers nothing |
| `CompositionManager.ColorizationColorChangedEvent.Remove` | src/Core/CompositionManager.cs:12 | `-=` replaces the subscriber list with `RemoveLast` of it (the last subscription of the handler goes, the rest keep their order, by `RemoveLastDeletesLastIndex`) and delivers nothing |
| `CompositionManager.ColorizationColorChangedEvent.Invoke` | src/Core/CompositionManager.cs:140-143 | invoking requires a subscriber (a null event would throw) and delivers one call to each subscriber, in order |
| `CompositionProperties.RemoveUndoesAdd` | src/Core/CompositionManager.cs:12 | unsubscribing right after subscribing restores the subscriber list |
| `CompositionProperties.RemoveLastDeletesLastIndex` | src/Core/CompositionManager.cs:12 | when the handler is subscribed, unsubscribing deletes the entry at an index holding the handler with no later occurrence of it, and leaves every other subscriber in its order |
| `CompositionProperties.RemoveAbsent` | src/Core/CompositionManager.cs:12 | unsubscribing a handler that is not subscribed changes nothing |
| `CompositionProperties.RemoveOneSubscription` | src/Core/CompositionManager.cs:12 | unsubscribing removes exactly one subscription of that handler (as a multiset) and keeps all others |
| `CompositionProperties.TwoSubscribersCalledInOrder` | src/Core/CompositionManager.cs:140-143 | with two subscribers, one raise calls each once, the first one first, with a null sender and empty arguments |
| `CompositionManager.WndProc` | src/Core/CompositionManager.cs:122-147 | always returns 0 and leaves `handled` unchanged. On 0x031E it makes the blur request with `enabled = IsBlurAvailable`, ignoring acrylic availability. On 0x0320 it delivers one call to each subscriber, with a null sender and empty arguments, and nothing when there are no subscribers. On any other code the platform is unchanged and nothing is delivered |
| `CompositionProperties.CompositionChangedOnlyEnables` | src/Core/CompositionManager.cs:125-134 | the blur request made on a composition change only ever enables: without legacy blur there is no acrylic either, so the disable branch sends nothing |
| `Native.Platform.AllocHGlobal` | src/Core/CompositionManager.cs:65 | returns a non-zero block distinct from every live one and adds it with the requested size |
| `Native.Platform.StructureToPtr` | src/Core/CompositionManager.cs:66 | needs a live block of at least 16 bytes and stores the record in it |
| `Native.Platform.FreeHGlobal` | src/Core/CompositionManager.cs:75 | needs a live block and removes it and its contents |
| `Native.Platform.SetWindowCompositionAttribute` | src/Core/CompositionManager.cs:73 | needs the envelope's payload to be live and initialised; records the handle, the attribute, the announced size, the block's size and the stored record |
| `Native.Platform.DwmEnableBlurBehindWindow` | src/Core/CompositionManager.cs:86 | records the handle and the blur-behind record and returns the platform's current status |
| `Native.Platform.DwmSetWindowAttribute` | src/Core/CompositionManager.cs:98-99 | records the handle, the attribute, the value and its size |
| `Native.Platform.DwmGetColorizationColor` | src/Core/CompositionManager.cs:115 | records the call and returns the platform's current colour and opaque flag |

## Left out

- src/Sidebar.Host/App.xaml.cs is not part of this model. It holds the application glue: exception logging, message boxes, registry file associations, tile-install checks, the single-instance check, locale loading and window creation.
- The DWM, user32 and `Marshal` calls are not modelled. The `Native.Platform` class stands for them: its observable effects are the trace, the unmanaged blocks and the counters.
- The byte layout of the native records is not modelled. `Marshal.SizeOf(accent)` is taken to be 16 bytes (four 4-byte fields). The numeric values of `AccentState` and `DwmWindowAttribute` are kept symbolic, because their enum definitions are not part of this model. Only `WCA_ACCENT_POLICY` = 19, the blur-behind flag bits 1 and 2, and `Flip3DPolicy.ExcludeBelow` = 1 are written out.
- Reading `Environment.OSVersion` is not modelled. The version is a parameter of each operation and of the capability predicates, so it is re-read on every call, as in the source.
- Exceptions the runtime can throw are not modelled: `OutOfMemoryException` from `Marshal.AllocHGlobal`, and failures inside native code.
- CompositionManager.SetBlurBehindWindow: the source frees the accent buffer only on the normal path; there is no try/finally around lines 65-75. The no-leak part of its contract, and of `BlurToggleLeaksNothing`, therefore covers only runs in which lines 66-73 return normally.
- What event handlers do when called is not modelled. So a handler that throws, and stops the remaining calls, is not captured. A delegate is modelled by an identity only.
- The floating-point scRGB fields of `System.Windows.Media.Color` are not modelled. Only its four byte channels are.
- The `wParam`, `lParam` and `hWnd` arguments of `WndProc` are passed through unread, except that `hWnd` is the window that blur is re-applied to.
- Threads are not modelled: everything runs on the UI thread, one call at a time.
- The accent gradient colour is `0x00FFFFFF`: alpha 0 over white. `WndProc` never assigns `handled`.
