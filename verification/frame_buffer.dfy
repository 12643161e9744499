/**
  The device handle of the frame-buffer driver: opening a real or simulated
  device, the geometry accessors, the depth-dispatched write of an ARGB pixel
  array, and closing.

  The C handle is a `struct deviceInfo` on the heap, passed to Java as a
  `jlong`. Here it is an immutable value; every operation that changes it
  returns the new value. Pointers are `Option`s (`None` is NULL). The
  operating system's answers to `open`, the two screen-info `ioctl`s and
  `mmap` are a parameter `Os`, and the uninitialised memory `malloc` returns
  for the shadow buffer is a parameter `junk`.
 */
module FrameBuffer {
  import opened Nullable
  import opened Rgb565
  import opened DeviceName

  /** The part of `fb_fix_screeninfo` the driver reads: the frame buffer's length in bytes. */
  datatype FixScreenInfo = FixScreenInfo(smemLen: nat)

  /** The part of `fb_var_screeninfo` the driver reads. */
  datatype VarScreenInfo = VarScreenInfo(xres: nat, yres: nat, bitsPerPixel: nat)

  /**
    The operating system's answer at each step of opening a real device:
    whether the platform has frame-buffer support at all, the descriptor
    `open` returns, the two `ioctl` queries (`None` when they fail), and the
    device memory `mmap` exposes as 16-bit words (`None` when it fails).
   */
  datatype Os = Os(
    linux: bool,
    fd: int,
    fixedInfo: Option<FixScreenInfo>,
    varInfo: Option<VarScreenInfo>,
    memory: Option<nat -> bv16>)

  /** `struct deviceInfo`, field for field. `fbp` is the mapped memory seen through the `unsigned short *` the write uses. */
  datatype DeviceInfo = DeviceInfo(
    deviceName: Option<string>,
    fbfd: int,
    width: int,
    height: int,
    bpp: int,
    screensize: int,
    fbp: Option<seq<bv16>>,
    dummy: Option<seq<bv32>>)

  /** The handle after `memset(di, 0, sizeof(*di))`. */
  const Zeroed := DeviceInfo(None, 0, 0, 0, 0, 0, None, None)

  /** The `jlong` `openDevice` returns: the handle, or one of the small error codes. */
  datatype OpenResult = Opened(handle: DeviceInfo) | Failed(code: int)

  /**
    No frame-buffer support on this platform, or `open` returned descriptor 0.
    A path `open` cannot open yields -1, which the test against 0 lets
    through; the first `ioctl` on it then fails with code 2.
   */
  const NotOpened := 1
  const FixedInfoQueryFailed := 2
  const VariableInfoQueryFailed := 3
  const MemoryMapFailed := 4

  /** A handle backed by the in-process shadow buffer of `width * height` pixels. */
  predicate IsSimulated(di: DeviceInfo)
  {
    && di.fbfd == 0
    && di.bpp == 0
    && di.fbp.None?
    && di.dummy.Some?
    && |di.dummy.value| == di.width * di.height
  }

  /** A handle backed by mapped device memory of `screensize` bytes. */
  predicate IsMapped(di: DeviceInfo)
  {
    && di.fbfd != 0
    && di.dummy.None?
    && di.screensize >= 0
    && di.fbp.Some?
    && |di.fbp.value| == di.screensize / 2
  }

  /** An open handle: named, with non-negative geometry, and backed by exactly one kind of buffer. */
  predicate IsOpen(di: DeviceInfo)
  {
    && di.deviceName.Some?
    && di.width >= 0
    && di.height >= 0
    && (IsSimulated(di) || IsMapped(di))
  }

  /** Both kinds of backing exclude each other. */
  lemma OneBacking(di: DeviceInfo)
    requires IsOpen(di)
    ensures IsSimulated(di) <==> !IsMapped(di)
    ensures di.dummy.Some? <==> di.fbp.None?
  {
  }

  /** `openDevice`: a "dummy_" name opens a simulated device, any other name a real one. */
  function OpenDevice(name: string, os: Os, junk: nat -> bv32): (r: OpenResult)
    ensures r.Opened? ==> IsOpen(r.handle) && r.handle.deviceName == Some(name)
    ensures r.Opened? ==> (IsSimulated(r.handle) <==> IsDummyName(name))
    ensures IsDummyName(name) ==> r.Opened?
    ensures r.Failed? ==> 1 <= r.code <= 4
    ensures !os.linux && !IsDummyName(name) ==> r == Failed(NotOpened)
  {
    var di := Zeroed.(deviceName := Some(name));
    if !StartsWith(DummyPrefix, name) then OpenReal(di, os)
    else OpenDummy(di, ScanDummy(name), junk)
  }

  /**
    The dummy branch, given what the scan of the name filled: set the
    geometry, clear the depth, allocate an uninitialised shadow buffer. A
    dimension the scan does not fill keeps the zero the initial `memset` put
    there.
   */
  function OpenDummy(di: DeviceInfo, scanned: Scanned, junk: nat -> bv32): (r: OpenResult)
    requires di.width == 0 && di.height == 0 && di.fbfd == 0 && di.fbp.None? && di.deviceName.Some?
    ensures r.Opened? && IsOpen(r.handle) && IsSimulated(r.handle)
    ensures r.handle.deviceName == di.deviceName
  {
    var w: nat := scanned.width.GetOr(0);
    var h: nat := scanned.height.GetOr(0);
    var shadow := seq(w * h, i requires 0 <= i => junk(i));
    Opened(di.(width := w, height := h, bpp := 0, dummy := Some(shadow)))
  }

  /** The real-device branch, checked step by step in the order the driver makes the calls. */
  function OpenReal(di: DeviceInfo, os: Os): (r: OpenResult)
    requires di.deviceName.Some?
    ensures r.Opened? ==> IsOpen(r.handle) && IsMapped(r.handle) && r.handle.deviceName == di.deviceName
    ensures r.Failed? ==> 1 <= r.code <= 4
  {
    if !os.linux then Failed(NotOpened)
    else if os.fd == 0 then Failed(NotOpened)
    else if os.fixedInfo.None? then Failed(FixedInfoQueryFailed)
    else if os.varInfo.None? then Failed(VariableInfoQueryFailed)
    else if os.memory.None? then Failed(MemoryMapFailed)
    else
      var v := os.varInfo.value;
      var size := os.fixedInfo.value.smemLen;
      var mem := os.memory.value;
      Opened(di.(fbfd := os.fd, width := v.xres, height := v.yres, bpp := v.bitsPerPixel,
                 dummy := None, screensize := size, fbp := Some(seq(size / 2, i requires 0 <= i => mem(i)))))
  }

  /** `getDeviceWidth`: never negative on an open handle, 0 on a closed one, and a factor of the shadow buffer's size. */
  function GetDeviceWidth(di: DeviceInfo): (w: int)
    ensures IsOpen(di) ==> w >= 0
    ensures di == Zeroed ==> w == 0
    ensures IsSimulated(di) ==> |di.dummy.value| == w * di.height
  {
    di.width
  }

  /** `getDeviceHeight`: never negative on an open handle, 0 on a closed one, and a factor of the shadow buffer's size. */
  function GetDeviceHeight(di: DeviceInfo): (h: int)
    ensures IsOpen(di) ==> h >= 0
    ensures di == Zeroed ==> h == 0
    ensures IsSimulated(di) ==> |di.dummy.value| == di.width * h
  {
    di.height
  }

  /** `getDeviceBitsPerPixel`: 0 on a simulated or closed handle, which is what sends writes to the shadow buffer. */
  function GetDeviceBitsPerPixel(di: DeviceInfo): (b: int)
    ensures IsSimulated(di) ==> b == 0
    ensures di == Zeroed ==> b == 0
  {
    di.bpp
  }

  /**
    A "dummy_" name opens a simulated device of depth 0 whose dimensions are
    what the scan of the name filled, zero where it filled nothing, and whose
    shadow buffer holds `width * height` uninitialised entries.
   */
  lemma OpenDummyName(name: string, os: Os, junk: nat -> bv32)
    requires IsDummyName(name)
    ensures var r := OpenDevice(name, os, junk);
      && r.Opened?
      && IsSimulated(r.handle)
      && GetDeviceWidth(r.handle) == ScanDummy(name).width.GetOr(0)
      && GetDeviceHeight(r.handle) == ScanDummy(name).height.GetOr(0)
      && GetDeviceBitsPerPixel(r.handle) == 0
      && r.handle.dummy.value == seq(GetDeviceWidth(r.handle) * GetDeviceHeight(r.handle), i requires 0 <= i => junk(i))
  {
  }

  /**
    A name "dummy_" W "x" H (runs of digits, then anything that does not start
    with a digit) opens a simulated W by H device of depth 0 whose shadow buffer
    has W * H entries.
   */
  lemma OpenDummyDigits(name: string, dw: string, dh: string, rest: string, os: Os, junk: nat -> bv32)
    requires AllDigits(dw) && |dw| > 0 && AllDigits(dh) && |dh| > 0
    requires rest == [] || !IsDigit(rest[0])
    requires name == DummyPrefix + dw + "x" + dh + rest
    ensures var r := OpenDevice(name, os, junk);
      && r.Opened?
      && IsSimulated(r.handle)
      && GetDeviceWidth(r.handle) == DecimalValue(dw)
      && GetDeviceHeight(r.handle) == DecimalValue(dh)
      && GetDeviceBitsPerPixel(r.handle) == 0
      && |r.handle.dummy.value| == DecimalValue(dw) * DecimalValue(dh)
  {
    ScanDummyDigits(dw, dh, rest);
    DummyNameIsPrefixed(dw + "x" + dh + rest);
    ConcatAssoc(DummyPrefix, dw, "x");
    ConcatAssoc(DummyPrefix, dw + "x", dh);
    ConcatAssoc(DummyPrefix, dw + "x" + dh, rest);
    OpenDummyName(name, os, junk);
  }

  /** The name formatted for a W by H simulated device opens with exactly that geometry. */
  lemma OpenDummyFormatted(name: string, w: nat, h: nat, os: Os, junk: nat -> bv32)
    requires name == DummyPrefix + Decimal(w) + "x" + Decimal(h)
    ensures var r := OpenDevice(name, os, junk);
      && r.Opened?
      && IsSimulated(r.handle)
      && GetDeviceWidth(r.handle) == w
      && GetDeviceHeight(r.handle) == h
      && GetDeviceBitsPerPixel(r.handle) == 0
      && r.handle.dummy.value == seq(w * h, i requires 0 <= i => junk(i))
  {
    ScanDummyFormatted(w, h);
    DummyNameIsPrefixed(Decimal(w) + "x" + Decimal(h));
    ConcatAssoc(DummyPrefix, Decimal(w), "x");
    ConcatAssoc(DummyPrefix, Decimal(w) + "x", Decimal(h));
    OpenDummyName(name, os, junk);
  }

  /** A width without a following "x" and height digits leaves the height at the zero `memset` put there. */
  lemma OpenDummyWidthOnly(name: string, dw: string, rest: string, os: Os, junk: nat -> bv32)
    requires AllDigits(dw) && |dw| > 0
    requires rest == [] || (!IsDigit(rest[0]) && (rest[0] != 'x' || |rest| == 1 || !IsDigit(rest[1])))
    requires name == DummyPrefix + dw + rest
    ensures var r := OpenDevice(name, os, junk);
      && r.Opened?
      && GetDeviceWidth(r.handle) == DecimalValue(dw)
      && GetDeviceHeight(r.handle) == 0
      && r.handle.dummy == Some([])
  {
    ScanDummyWidthOnly(dw, rest);
    DummyNameIsPrefixed(dw + rest);
    ConcatAssoc(DummyPrefix, dw, rest);
    OpenDummyName(name, os, junk);
    var r := OpenDevice(name, os, junk);
    assert GetDeviceHeight(r.handle) == 0;
    assert |r.handle.dummy.value| == 0;
  }

  /** With no digits after the prefix both dimensions keep their zero and the shadow buffer is empty. */
  lemma OpenDummyUnparsed(name: string, rest: string, os: Os, junk: nat -> bv32)
    requires rest == [] || !IsDigit(rest[0])
    requires name == DummyPrefix + rest
    ensures var r := OpenDevice(name, os, junk);
      && r.Opened?
      && GetDeviceWidth(r.handle) == 0
      && GetDeviceHeight(r.handle) == 0
      && GetDeviceBitsPerPixel(r.handle) == 0
      && r.handle.dummy == Some([])
  {
    ScanDummyNoDigits(rest);
    DummyNameIsPrefixed(rest);
    OpenDummyName(name, os, junk);
  }

  /**
    A real device opens only when every step succeeds; each failing step has
    its own code, except that a missing platform and a failed `open` share
    code 1. An opened real device takes its geometry and depth from the
    variable screen info and maps half as many 16-bit words as the fixed
    screen info reports bytes.
   */
  lemma OpenRealDevice(name: string, os: Os, junk: nat -> bv32)
    requires !IsDummyName(name)
    ensures var r := OpenDevice(name, os, junk);
      && (!os.linux || os.fd == 0 ==> r == Failed(NotOpened))
      && (os.linux && os.fd != 0 && os.fixedInfo.None? ==> r == Failed(FixedInfoQueryFailed))
      && (os.linux && os.fd != 0 && os.fixedInfo.Some? && os.varInfo.None? ==> r == Failed(VariableInfoQueryFailed))
      && (os.linux && os.fd != 0 && os.fixedInfo.Some? && os.varInfo.Some? && os.memory.None? ==> r == Failed(MemoryMapFailed))
      && (r.Opened? <==> os.linux && os.fd != 0 && os.fixedInfo.Some? && os.varInfo.Some? && os.memory.Some?)
      && (r.Opened? ==>
            && IsMapped(r.handle)
            && GetDeviceWidth(r.handle) == os.varInfo.value.xres
            && GetDeviceHeight(r.handle) == os.varInfo.value.yres
            && GetDeviceBitsPerPixel(r.handle) == os.varInfo.value.bitsPerPixel
            && |r.handle.fbp.value| == os.fixedInfo.value.smemLen / 2)
  {
  }

  /**
    Answers a real operating system can give: `open` reports failure with a
    negative descriptor, and every later call on that descriptor fails.
   */
  predicate Plausible(os: Os)
  {
    os.fd < 0 ==> os.fixedInfo.None? && os.varInfo.None? && os.memory.None?
  }

  /**
    Code 1 comes only from a platform without frame-buffer support or from
    `open` returning descriptor 0. A path `open` rejects (descriptor -1)
    passes the test against 0, and on a plausible system the fixed-info query
    on it fails, so the code is 2.
   */
  lemma UnopenablePathFailsWithTwo(name: string, os: Os, junk: nat -> bv32)
    requires !IsDummyName(name)
    ensures OpenDevice(name, os, junk) == Failed(NotOpened) <==> !os.linux || os.fd == 0
    ensures os.linux && os.fd == -1 && Plausible(os) ==> OpenDevice(name, os, junk) == Failed(FixedInfoQueryFailed)
  {
  }

  /** What `closeDevice` gives back to the system. */
  datatype Released = Released(nameFreed: bool, shadowFreed: bool, unmapped: bool)

  /**
    `closeDevice`: free the name, free the shadow buffer if there is one,
    unmap and close when the descriptor is not 0, then zero every field.
   */
  function CloseDevice(di: DeviceInfo): (r: (DeviceInfo, Released))
    ensures GetDeviceWidth(r.0) == 0 && GetDeviceHeight(r.0) == 0 && GetDeviceBitsPerPixel(r.0) == 0
    ensures r.0.deviceName.None? && r.0.fbp.None? && r.0.dummy.None?
    ensures r.1.shadowFreed <==> di.dummy.Some?
    ensures r.1.unmapped <==> di.fbfd != 0
    ensures !IsOpen(r.0)
  {
    (Zeroed, Released(di.deviceName.Some?, di.dummy.Some?, di.fbfd != 0))
  }

  /** Closing an open handle releases its name and exactly the one buffer it owns. */
  lemma CloseReleasesOwnedBuffer(di: DeviceInfo)
    requires IsOpen(di)
    ensures CloseDevice(di).1.nameFreed
    ensures CloseDevice(di).1.shadowFreed <==> IsSimulated(di)
    ensures CloseDevice(di).1.unmapped <==> IsMapped(di)
    ensures CloseDevice(di).1.shadowFreed != CloseDevice(di).1.unmapped
  {
  }

  /** A second close finds every field zero: it releases nothing and leaves the handle as it was. */
  lemma CloseTwiceIsInert(di: DeviceInfo)
    ensures CloseDevice(CloseDevice(di).0) == (CloseDevice(di).0, Released(false, false, false))
  {
  }

  /** The number of entries a possibly-NULL buffer holds. */
  function Length<T>(buf: Option<seq<T>>): nat
  {
    if buf.Some? then |buf.value| else 0
  }

  /**
    The write loops run to the caller's length unchecked, so a write of `len`
    pixels is defined only when the buffer its depth selects holds at least
    `len` entries. A NULL buffer holds none.
   */
  predicate CanWrite(di: DeviceInfo, len: nat)
  {
    && (di.bpp == 0 ==> len <= Length(di.dummy))
    && (di.bpp == 16 ==> len <= Length(di.fbp))
  }

  /** After a closed handle, only the empty write is defined. */
  lemma ClosedHandleWritesNothing(di: DeviceInfo, len: nat)
    ensures CanWrite(CloseDevice(di).0, len) <==> len == 0
  {
  }

  /** `after` is `before` with its first `|src|` entries replaced by `src`, index for index. */
  ghost predicate Overwritten<T>(before: seq<T>, after: seq<T>, src: seq<T>)
  {
    && |src| <= |before|
    && |after| == |before|
    && (forall i :: 0 <= i < |src| ==> after[i] == src[i])
    && (forall i :: |src| <= i < |before| ==> after[i] == before[i])
  }

  /** There is only one way to overwrite a buffer with given entries. */
  lemma OverwrittenUnique<T>(before: seq<T>, a: seq<T>, b: seq<T>, src: seq<T>)
    requires Overwritten(before, a, src) && Overwritten(before, b, src)
    ensures a == b
  {
  }

  /** Every pixel converted by `to_16bit`. */
  function PackAll(pixels: seq<bv32>): seq<bv16>
  {
    seq(|pixels|, i requires 0 <= i < |pixels| => To16Bit(pixels[i]))
  }

  lemma PackAllAt(pixels: seq<bv32>, i: nat)
    requires i < |pixels|
    ensures |PackAll(pixels)| == |pixels|
    ensures PackAll(pixels)[i] == To16Bit(pixels[i])
  {
  }

  /** A buffer with its first `|src|` entries replaced by `src`; a NULL buffer stays NULL. */
  function Overlay<T>(buf: Option<seq<T>>, src: seq<T>): (r: Option<seq<T>>)
    requires |src| <= Length(buf)
    ensures r.Some? <==> buf.Some?
    ensures buf.Some? ==> Overwritten(buf.value, r.value, src)
  {
    if buf.None? then None else Some(src + buf.value[|src|..])
  }

  /**
    `writeDeviceBuffer`, dispatched on the depth: at depth 0 the pixels are
    copied unchanged into the shadow buffer, at depth 16 each is packed by
    `to_16bit` into the mapped memory, and at any other depth nothing happens.
    Only the selected buffer changes, and only in its first `|pixels|` entries.
   */
  function WriteDeviceBuffer(di: DeviceInfo, pixels: seq<bv32>): (r: DeviceInfo)
    requires CanWrite(di, |pixels|)
    ensures r.(fbp := di.fbp, dummy := di.dummy) == di
    ensures di.bpp == 0 ==>
      && r.fbp == di.fbp
      && (r.dummy.Some? <==> di.dummy.Some?)
      && (di.dummy.Some? ==> Overwritten(di.dummy.value, r.dummy.value, pixels))
    ensures di.bpp == 16 ==>
      && r.dummy == di.dummy
      && (r.fbp.Some? <==> di.fbp.Some?)
      && (di.fbp.Some? ==> Overwritten(di.fbp.value, r.fbp.value, PackAll(pixels)))
    ensures di.bpp != 0 && di.bpp != 16 ==> r == di
  {
    if di.bpp == 0 then di.(dummy := Overlay(di.dummy, pixels))
    else if di.bpp == 16 then di.(fbp := Overlay(di.fbp, PackAll(pixels)))
    else di
  }

  /** The depth-0 loop: `dummy[i] = body[i]` for every `i < len`. */
  method CopyPixels(dummy: seq<bv32>, body: seq<bv32>) returns (out: seq<bv32>)
    requires |body| <= |dummy|
    ensures Overwritten(dummy, out, body)
  {
    out := dummy;
    var i := 0;
    while i < |body|
      invariant 0 <= i <= |body|
      invariant |out| == |dummy|
      invariant forall k :: 0 <= k < i ==> out[k] == body[k]
      invariant forall k :: i <= k < |dummy| ==> out[k] == dummy[k]
    {
      out := out[i := body[i]];
      i := i + 1;
    }
  }

  /** The depth-16 loop: `p[i] = to_16bit(body[i])` for every `i < len`. */
  method PackPixels(p: seq<bv16>, body: seq<bv32>) returns (out: seq<bv16>)
    requires |body| <= |p|
    ensures Overwritten(p, out, PackAll(body))
  {
    out := p;
    var i := 0;
    while i < |body|
      invariant 0 <= i <= |body|
      invariant |out| == |p|
      invariant forall k :: 0 <= k < i ==> out[k] == To16Bit(body[k])
      invariant forall k :: i <= k < |p| ==> out[k] == p[k]
    {
      out := out[i := To16Bit(body[i])];
      i := i + 1;
    }
  }

  /** The `switch` of `writeDeviceBuffer` over the two loops; it agrees with `WriteDeviceBuffer`. */
  method WriteDevice(di: DeviceInfo, pixels: seq<bv32>) returns (r: DeviceInfo)
    requires CanWrite(di, |pixels|)
    ensures r == WriteDeviceBuffer(di, pixels)
  {
    ghost var expected := WriteDeviceBuffer(di, pixels);
    if di.bpp == 0 {
      if di.dummy.Some? {
        var shadow := CopyPixels(di.dummy.value, pixels);
        OverwrittenUnique(di.dummy.value, shadow, expected.dummy.value, pixels);
        r := di.(dummy := Some(shadow));
      } else {
        r := di;
      }
    } else if di.bpp == 16 {
      if di.fbp.Some? {
        var mapped := PackPixels(di.fbp.value, pixels);
        OverwrittenUnique(di.fbp.value, mapped, expected.fbp.value, PackAll(pixels));
        r := di.(fbp := Some(mapped));
      } else {
        r := di;
      }
    } else {
      r := di;
    }
  }

  /** Writing keeps an open handle open, with the same geometry and depth. */
  lemma WriteKeepsOpen(di: DeviceInfo, pixels: seq<bv32>)
    requires IsOpen(di) && CanWrite(di, |pixels|)
    ensures IsOpen(WriteDeviceBuffer(di, pixels))
    ensures GetDeviceWidth(WriteDeviceBuffer(di, pixels)) == GetDeviceWidth(di)
    ensures GetDeviceHeight(WriteDeviceBuffer(di, pixels)) == GetDeviceHeight(di)
    ensures GetDeviceBitsPerPixel(WriteDeviceBuffer(di, pixels)) == GetDeviceBitsPerPixel(di)
    ensures CanWrite(WriteDeviceBuffer(di, pixels), |pixels|)
  {
  }

  /** Writing the same pixels twice leaves the same buffers as writing them once. */
  lemma WriteIdempotent(di: DeviceInfo, pixels: seq<bv32>)
    requires CanWrite(di, |pixels|)
    ensures CanWrite(WriteDeviceBuffer(di, pixels), |pixels|)
    ensures WriteDeviceBuffer(WriteDeviceBuffer(di, pixels), pixels) == WriteDeviceBuffer(di, pixels)
  {
    var once := WriteDeviceBuffer(di, pixels);
    var twice := WriteDeviceBuffer(once, pixels);
    if di.bpp == 0 && di.dummy.Some? {
      OverwrittenUnique(di.dummy.value, twice.dummy.value, once.dummy.value, pixels);
    } else if di.bpp == 16 && di.fbp.Some? {
      OverwrittenUnique(di.fbp.value, twice.fbp.value, once.fbp.value, PackAll(pixels));
    }
  }

  /** A write covering at least as many pixels as the one before it hides the earlier write completely. */
  lemma WriteLastWins(di: DeviceInfo, first: seq<bv32>, second: seq<bv32>)
    requires CanWrite(di, |second|)
    requires |first| <= |second|
    ensures CanWrite(di, |first|)
    ensures CanWrite(WriteDeviceBuffer(di, first), |second|)
    ensures WriteDeviceBuffer(WriteDeviceBuffer(di, first), second) == WriteDeviceBuffer(di, second)
  {
    var a := WriteDeviceBuffer(WriteDeviceBuffer(di, first), second);
    var b := WriteDeviceBuffer(di, second);
    if di.bpp == 0 && di.dummy.Some? {
      OverwrittenUnique(di.dummy.value, a.dummy.value, b.dummy.value, second);
    } else if di.bpp == 16 && di.fbp.Some? {
      OverwrittenUnique(di.fbp.value, a.fbp.value, b.fbp.value, PackAll(second));
    }
  }

  /**
    On a freshly opened W by H simulated device, a write of at most W * H
    pixels can be read back from the shadow buffer exactly, and the rest of
    the shadow buffer still holds what `malloc` left there.
   */
  lemma SimulatedWriteReadBack(name: string, w: nat, h: nat, pixels: seq<bv32>, os: Os, junk: nat -> bv32)
    requires name == DummyPrefix + Decimal(w) + "x" + Decimal(h)
    requires |pixels| <= w * h
    ensures var r := OpenDevice(name, os, junk);
      && r.Opened?
      && IsSimulated(r.handle)
      && CanWrite(r.handle, |pixels|)
      && var shadow := WriteDeviceBuffer(r.handle, pixels).dummy.value;
      && |shadow| == w * h
      && shadow[..|pixels|] == pixels
      && (forall i :: |pixels| <= i < |shadow| ==> shadow[i] == junk(i))
  {
    OpenDummyFormatted(name, w, h, os, junk);
    var r := OpenDevice(name, os, junk);
    SimulatedWriteReadsBack(r.handle, pixels);
  }

  /** On a simulated device, the shadow buffer starts with the pixels just written and keeps everything after them. */
  lemma SimulatedWriteReadsBack(di: DeviceInfo, pixels: seq<bv32>)
    requires IsSimulated(di) && |pixels| <= |di.dummy.value|
    ensures CanWrite(di, |pixels|)
    ensures WriteDeviceBuffer(di, pixels).dummy.value[..|pixels|] == pixels
    ensures WriteDeviceBuffer(di, pixels).dummy.value[|pixels|..] == di.dummy.value[|pixels|..]
  {
    var shadow := WriteDeviceBuffer(di, pixels).dummy.value;
    assert Overwritten(di.dummy.value, shadow, pixels);
    assert shadow[..|pixels|] == pixels;
    assert shadow[|pixels|..] == di.dummy.value[|pixels|..];
  }

  /**
    On a 16-bit device each written word is the packed pixel, and unpacking it
    (with the corrected unpacker) gives the pixel without the bits RGB565 drops.
   */
  lemma MappedWriteHoldsPacked(di: DeviceInfo, pixels: seq<bv32>, i: nat)
    requires IsMapped(di) && di.bpp == 16 && CanWrite(di, |pixels|)
    requires i < |pixels|
    ensures WriteDeviceBuffer(di, pixels).fbp.value[i] == To16Bit(pixels[i])
    ensures From16BitCorrected(WriteDeviceBuffer(di, pixels).fbp.value[i]) == pixels[i] & 0x00F8FCF8
  {
    var packed := PackAll(pixels);
    PackAllAt(pixels, i);
    var mapped := WriteDeviceBuffer(di, pixels).fbp.value;
    assert Overwritten(di.fbp.value, mapped, packed);
    assert mapped[i] == packed[i];
    CorrectedUnpackAfterPack(pixels[i]);
  }
}
