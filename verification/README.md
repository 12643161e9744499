# Frame-buffer driver shim, modelled in Dafny

This project models the native half of a small Java frame-buffer library. The
library opens a display device and reports its geometry and pixel depth. It then
writes arrays of 32-bit ARGB pixels to the device. A real device is a Linux
frame buffer (`/dev/fb1`) whose memory is mapped into the process. On a 16-bit
device each pixel is packed to RGB565 on the way in; at any other depth the
write does nothing. A simulated device is selected
by a name such as `dummy_160x128` and keeps an in-process shadow array of
`width * height` pixels, copied in unchanged.

The model has four modules:

- `Nullable` (nullable.dfy): `Option`, which stands in for NULL pointers and for `sscanf` targets left unfilled.
- `Rgb565` (rgb565.dfy): the pixel codec. `To16Bit` is `to_16bit`,
  `From16Bit` is `from_16bit` as written, and `From16BitCorrected` is the
  unpacker with the blue shift fixed (see Findings). Channels and fields are
  bit-vectors (`bv32`, `bv16`, `bv8`).
- `DeviceName` (device_name.dfy): `starts_with` (`StartsWith`, over
  `strncmp`) and the `sscanf(name, "dummy_%dx%d", ...)` parse
  (`ScanDummy`). The parse records which targets the scan fills.
- `FrameBuffer` (frame_buffer.dfy): the handle `struct deviceInfo` as an
  immutable `DeviceInfo` value. It covers `openDevice` (`OpenDevice`, which
  branches to `OpenDummy` or `OpenReal`), `closeDevice` (`CloseDevice`) and
  the three accessors. `writeDeviceBuffer` is the function
  `WriteDeviceBuffer`. The two C loops appear as the methods `CopyPixels` and
  `PackPixels`, and `WriteDevice` dispatches to them and is proved to agree
  with `WriteDeviceBuffer`.

Things outside the program become parameters:

- `Os` carries the operating system's answer at each step of a real open.
  These are the platform check, the descriptor `open` returns, the two
  screen-info `ioctl`s and the memory `mmap` exposes.
- `junk` is the uninitialised memory `malloc` returns for the shadow buffer.

The model follows the code as written, including where its behaviour may
surprise:

- The shadow buffer is not zeroed. `malloc` leaves its contents arbitrary, so
  they come from `junk`.
- The write loops do not clamp to the buffer. They run to the caller's length,
  so `WriteDeviceBuffer` requires `CanWrite`: the buffer the depth selects must
  hold at least `|pixels|` entries. A NULL buffer holds none. Writing to a
  closed handle is therefore defined only for an empty pixel array.
- Code 1 comes only from a build without `__linux` or from `open` returning
  descriptor 0. The open path tests the descriptor against 0, as the code does
  (`!di->fbfd`), but `open` reports failure with -1. A path that cannot be
  opened therefore goes on to the fixed-info `ioctl` on descriptor -1, which
  fails, and the result is code 2 (`UnopenablePathFailsWithTwo`). The
  fixed-info query, the variable-info query and `mmap` return 2, 3 and 4.
- Any name starting with `dummy_` opens a simulated device, not only one with
  positive dimensions. A dimension the scan does not fill stays 0, the value
  the initial `memset` wrote.
- A second `closeDevice` does no harm in the code, because the first one zeroed
  every field: `CloseTwiceIsInert`.
- `from_16bit` does not reproduce representable colours: see Findings.

## Model

| member | source | states |
|---|---|---|
| DeviceName.StrnEqual | framebuffer/src/main/c/FrameBuffer.c:49 | `strncmp(a, b, n) == 0` holds exactly when the first `n` characters of both strings agree |
| DeviceName.StartsWith | framebuffer/src/main/c/FrameBuffer.c:46-50 | true exactly when the string is at least as long as the prefix and begins with it |
| DeviceName.DummyNameIsPrefixed | framebuffer/src/main/c/FrameBuffer.c:68 | every name beginning "dummy_" selects the simulated branch; "/dev/fb1" and the bare "dummy" do not |
| DeviceName.ScanDecimal | framebuffer/src/main/c/FrameBuffer.c:117 | a `%d` conversion fails exactly when no digit comes first; otherwise it consumes a maximal non-empty digit run and yields its decimal value |
| DeviceName.ScanDummy | framebuffer/src/main/c/FrameBuffer.c:117 | the scan fills the height only after filling the width, and fills nothing for a name without the "dummy_" prefix |
| DeviceName.ScanDummyDigits | framebuffer/src/main/c/FrameBuffer.c:117 | "dummy_" W "x" H, with digit runs W and H, fills width and height with their decimal values whatever non-digit text follows |
| DeviceName.ScanDummyFormatted | framebuffer/src/main/c/FrameBuffer.c:117 | the name formatted from dimensions w and h scans back to exactly w and h |
| DeviceName.ScanDummyWidthOnly | framebuffer/src/main/c/FrameBuffer.c:117 | a width not followed by 'x' and a digit fills the width and leaves the height unfilled |
| DeviceName.ScanDummyNoDigits | framebuffer/src/main/c/FrameBuffer.c:117 | with no digit after the prefix the scan fills nothing |
| DeviceName.DecimalValueOfDecimal | framebuffer/src/main/c/FrameBuffer.c:117 | the decimal value of the digits formatted for n is n |
| Rgb565.To16Bit | framebuffer/src/main/c/FrameBuffer.c:165-171 | red's top 5 bits land in bits 15..11, green's top 6 bits in bits 10..5 and blue's top 5 bits in bits 4..0; the sum fits in 16 bits |
| Rgb565.FieldsDetermineWord | framebuffer/src/main/c/FrameBuffer.c:170 | a RGB565 word is determined by its three fields, so the contract of `To16Bit` fixes its result |
| Rgb565.PackedIsDisjointOr | framebuffer/src/main/c/FrameBuffer.c:170 | the shifted fields do not overlap, so the code's `+` equals a bitwise or of the fields |
| Rgb565.PackIgnoresAlpha | framebuffer/src/main/c/FrameBuffer.c:165-170 | two words with the same red, green and blue pack alike, whatever their alpha bytes |
| Rgb565.PackPrimaries | framebuffer/src/main/c/FrameBuffer.c:165-171 | pure red, green and blue pack to 31<<11, 63<<5 and 31; white packs to 0xFFFF and opaque black to 0 |
| Rgb565.From16Bit | framebuffer/src/main/c/FrameBuffer.c:173-179 | top byte 0, red byte = red field << 3, green byte = green field << 2, blue byte = blue field << 2 with green's low bit in bit 7 |
| Rgb565.UnpackAfterPack | framebuffer/src/main/c/FrameBuffer.c:165-179 | packing then unpacking gives alpha 0, red `R & 0xF8`, green `G & 0xFC`, and a blue byte of `(B & 0xF8) >> 1` topped by bit 2 of green |
| Rgb565.UnpackLosesBlue | framebuffer/src/main/c/FrameBuffer.c:176 | the representable colour 0x0000F8 packs to 0x1F and unpacks to 0x00007C |
| Rgb565.UnpackLeaksGreen | framebuffer/src/main/c/FrameBuffer.c:176 | the representable colour 0x000400 unpacks to 0x000480: green's low field bit appears in blue |
| Rgb565.From16BitCorrected | framebuffer/src/main/c/FrameBuffer.c:173-179 | top byte 0, and each channel byte is its field shifted back to the top of the byte |
| Rgb565.CorrectedUnpackAfterPack | framebuffer/src/main/c/FrameBuffer.c:165-179 | with the corrected unpacker, packing then unpacking clears exactly the bits packing drops (mask 0x00F8FCF8) |
| Rgb565.CorrectedRoundTrip | framebuffer/src/main/c/FrameBuffer.c:165-179 | with the corrected unpacker, every colour representable in RGB565 survives pack and unpack |
| Rgb565.PackAfterCorrectedUnpack | framebuffer/src/main/c/FrameBuffer.c:165-179 | packing the corrected unpacker's output gives back the packed word |
| FrameBuffer.OneBacking | framebuffer/src/main/c/FrameBuffer.c:30-43 | an open handle owns exactly one buffer: the shadow array or the mapped memory |
| FrameBuffer.OpenDevice | framebuffer/src/main/c/FrameBuffer.c:52-122 | an opened handle is open, named by its name and simulated exactly for "dummy_" names; "dummy_" names always open; failures are codes 1 to 4; without frame-buffer support a real name fails with 1 |
| FrameBuffer.OpenDummy | framebuffer/src/main/c/FrameBuffer.c:115-120 | the dummy branch always yields an open simulated handle |
| FrameBuffer.OpenReal | framebuffer/src/main/c/FrameBuffer.c:70-114 | the real branch yields an open mapped handle or an error code from 1 to 4 |
| FrameBuffer.OpenDummyName | framebuffer/src/main/c/FrameBuffer.c:59-120 | a "dummy_" name opens with the scanned dimensions (0 where unfilled), depth 0, and a shadow buffer of width * height uninitialised entries |
| FrameBuffer.OpenDummyDigits | framebuffer/src/main/c/FrameBuffer.c:116-119 | "dummy_" W "x" H opens a simulated device whose accessors return W, H and 0 and whose shadow buffer has W * H entries |
| FrameBuffer.OpenDummyFormatted | framebuffer/src/main/c/FrameBuffer.c:116-119 | the name formatted from w and h opens with width w, height h, depth 0 and a w * h shadow buffer |
| FrameBuffer.OpenDummyWidthOnly | framebuffer/src/main/c/FrameBuffer.c:59-119 | a name giving only a width (nothing after it, a non-digit, or an 'x' without digits) opens with that width, height 0 and an empty shadow buffer |
| FrameBuffer.OpenDummyUnparsed | framebuffer/src/main/c/FrameBuffer.c:59-119 | a "dummy_" name without digits opens with width, height and depth 0 and an empty shadow buffer |
| FrameBuffer.OpenRealDevice | framebuffer/src/main/c/FrameBuffer.c:70-113 | a real open fails at the first failing step with that step's code; it succeeds only if every step does, with the variable info's geometry and depth and smem_len / 2 mapped words |
| FrameBuffer.UnopenablePathFailsWithTwo | framebuffer/src/main/c/FrameBuffer.c:68-89 | a real name fails with code 1 exactly when the platform lacks frame-buffer support or `open` returns 0; a path `open` rejects with -1 fails with code 2 on a system whose calls on -1 fail |
| FrameBuffer.GetDeviceWidth | framebuffer/src/main/c/FrameBuffer.c:141-147 | an open handle reports a non-negative width, a closed one 0, and on a simulated handle the shadow buffer holds width * height entries |
| FrameBuffer.GetDeviceHeight | framebuffer/src/main/c/FrameBuffer.c:149-155 | an open handle reports a non-negative height, a closed one 0, and on a simulated handle the shadow buffer holds width * height entries |
| FrameBuffer.GetDeviceBitsPerPixel | framebuffer/src/main/c/FrameBuffer.c:157-163 | a simulated or closed handle reports depth 0 |
| FrameBuffer.CloseDevice | framebuffer/src/main/c/FrameBuffer.c:124-163 | after close all three accessors return 0 and no buffer or name remains; the shadow is freed exactly when present, and unmapping happens exactly when the descriptor is not 0 |
| FrameBuffer.CloseReleasesOwnedBuffer | framebuffer/src/main/c/FrameBuffer.c:129-136 | closing an open handle frees its name and releases exactly one buffer, the one it owns |
| FrameBuffer.CloseTwiceIsInert | framebuffer/src/main/c/FrameBuffer.c:124-139 | a second close releases nothing and leaves the zeroed handle as it was |
| FrameBuffer.ClosedHandleWritesNothing | framebuffer/src/main/c/FrameBuffer.c:187-199 | after close the only write with defined behaviour is the empty one |
| FrameBuffer.OverwrittenUnique | framebuffer/src/main/c/FrameBuffer.c:196-213 | the per-index description of a write determines the resulting buffer |
| FrameBuffer.WriteDeviceBuffer | framebuffer/src/main/c/FrameBuffer.c:181-222 | depth 0: shadow entries below `len` become the pixels and the rest are unchanged; depth 16: mapped entries below `len` become `to_16bit` of the pixels and the rest are unchanged; other depths change nothing; geometry is never touched |
| FrameBuffer.CopyPixels | framebuffer/src/main/c/FrameBuffer.c:194-200 | the depth-0 loop leaves the first `len` shadow entries equal to the pixels and the others unchanged |
| FrameBuffer.PackPixels | framebuffer/src/main/c/FrameBuffer.c:201-214 | the depth-16 loop leaves the first `len` mapped words equal to the packed pixels and the others unchanged |
| FrameBuffer.WriteDevice | framebuffer/src/main/c/FrameBuffer.c:193-219 | the depth switch over the two loops produces the handle `WriteDeviceBuffer` describes |
| FrameBuffer.WriteKeepsOpen | framebuffer/src/main/c/FrameBuffer.c:181-222 | a write keeps an open handle open with the same width, height and depth |
| FrameBuffer.WriteIdempotent | framebuffer/src/main/c/FrameBuffer.c:181-222 | writing the same pixels twice leaves what writing them once leaves |
| FrameBuffer.WriteLastWins | framebuffer/src/main/c/FrameBuffer.c:181-222 | a write at least as long as the previous one hides it completely |
| FrameBuffer.SimulatedWriteReadBack | framebuffer/src/main/c/FrameBuffer.c:116-200 | after opening "dummy_" W "x" H and writing at most W * H pixels, the shadow buffer starts with exactly those pixels and still holds the uninitialised entries after them |
| FrameBuffer.SimulatedWriteReadsBack | framebuffer/src/main/c/FrameBuffer.c:194-200 | on a simulated handle the shadow buffer's prefix is the pixels written and its suffix is unchanged |
| FrameBuffer.MappedWriteHoldsPacked | framebuffer/src/main/c/FrameBuffer.c:165-213 | on a 16-bit device each written word is `to_16bit` of its pixel, and the corrected unpacker turns it back into the pixel with alpha and the dropped low bits cleared |

## Left out

- JNI marshalling is left out: `GetStringUTFChars`, `GetArrayLength`, the critical-array calls and the `jlong` to pointer casts. The name arrives as a string of characters and the pixel array as a `seq<bv32>`. Modified UTF-8 has no NUL byte. `strlen` and `strncmp` count bytes where the model counts characters, but every answer the code asks of them is the same: "dummy_", the digits and 'x' are ASCII, and no byte of a multi-byte character is below 0x80, so none of them can match one.
- The operating system calls `open`, `ioctl`, `mmap`, `munmap` and `close` are not modelled. Their answers arrive in the `Os` parameter, and the model does not check their order or effects.
- `Os` is unconstrained. It admits answers no real system gives, such as descriptor -1 together with successful `ioctl`s and `mmap`; the predicate `Plausible` names the consistent ones, and only `UnopenablePathFailsWithTwo` assumes it.
- The bytes of mapped memory are not modelled. It is a sequence of `smem_len / 2` 16-bit words, so byte order and an odd trailing byte are out.
- Resources on failed opens are not tracked. The code neither frees `di` nor closes the descriptor on error returns 1 to 4.
- The `(int)` pointer comparison that detects a failed `mmap` is replaced by the `Os` parameter saying whether mapping failed.
- Allocation failure is not modelled: `malloc` and `strdup` returning NULL. Nor is the `int` overflow of `width * height * sizeof(int)`.
- `sscanf`'s `%d` accepts plain decimal digits only. Leading white space, a sign and overflow of `int` are out, so "dummy_-5x3" counts as a failed conversion here.
- Integer widths are not modelled. Width, height and depth are unbounded integers, so a 32-bit `xres` above `INT_MAX` does not wrap.
- A write to a closed handle is not modelled. It dereferences a NULL shadow buffer, which is undefined behaviour, and `CanWrite` excludes it.
- Concurrency with the display controller is out, as is tearing during a write.

## Findings

| source | as written | input that shows it | evidently intended | confidence | as-written member | corrected member |
|---|---|---|---|---|---|---|
| framebuffer/src/main/c/FrameBuffer.c:176 | `b = 0xff & (rgb << 2)` shifts the whole 16-bit word by 2 | `from_16bit(to_16bit(0x0000F8))` gives 0x00007C; `from_16bit(to_16bit(0x000400))` gives 0x000480 | `b = 0xff & ((rgb & 0x1f) << 3)`, so every colour RGB565 represents survives pack and unpack | high (not executed); `from_16bit` has no caller in FrameBuffer.c, so the defect is latent | Rgb565.UnpackLosesBlue | Rgb565.CorrectedRoundTrip |
