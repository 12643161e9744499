/**
  The pixel codec of the frame-buffer driver: packing a 32-bit ARGB word into a
  16-bit RGB565 word (`to_16bit`), and the unpacker `from_16bit` that widens a
  RGB565 word back to 24-bit RGB.

  Both C functions compute in `int`/`unsigned int` after the usual promotions;
  here the intermediate values are `bv32`, and the narrowing to `unsigned short`
  is an explicit `as bv16` whose range check the verifier discharges.
 */
module Rgb565 {

  /** Bits 31..24 of an ARGB word. */
  function Alpha(argb: bv32): bv8 { (argb >> 24) as bv8 }

  /** Bits 23..16 of an ARGB word. */
  function Red(argb: bv32): bv8 { ((argb >> 16) & 0xFF) as bv8 }

  /** Bits 15..8 of an ARGB word. */
  function Green(argb: bv32): bv8 { ((argb >> 8) & 0xFF) as bv8 }

  /** Bits 7..0 of an ARGB word. */
  function Blue(argb: bv32): bv8 { (argb & 0xFF) as bv8 }

  /** The 5-bit red field, bits 15..11 of a RGB565 word. */
  function Red5(p: bv16): bv16 { p >> 11 }

  /** The 6-bit green field, bits 10..5 of a RGB565 word. */
  function Green6(p: bv16): bv16 { (p >> 5) & 0x3F }

  /** The 5-bit blue field, bits 4..0 of a RGB565 word. */
  function Blue5(p: bv16): bv16 { p & 0x1F }

  /** A RGB565 word is determined by its three fields. */
  lemma FieldsDetermineWord(p: bv16, q: bv16)
    requires Red5(p) == Red5(q) && Green6(p) == Green6(q) && Blue5(p) == Blue5(q)
    ensures p == q
  {
  }

  /**
    `to_16bit`: the three 8-bit channels are cut to their top 5, 6 and 5 bits
    and placed in the red, green and blue fields. The C code adds the shifted
    fields; the sum stays below 2^16, so the narrowing to `unsigned short`
    loses nothing.
   */
  function To16Bit(argb: bv32): (p: bv16)
    ensures Red5(p) == (Red(argb) >> 3) as bv16
    ensures Green6(p) == (Green(argb) >> 2) as bv16
    ensures Blue5(p) == (Blue(argb) >> 3) as bv16
  {
    var r := (argb >> 16) & 0xFF;
    var g := (argb >> 8) & 0xFF;
    var b := argb & 0xFF;
    var sum := ((r / 8) << 11) + ((g / 4) << 5) + (b / 8);
    sum as bv16
  }

  /** The fields never overlap, so the C code's `+` acts as a bitwise or. */
  lemma PackedIsDisjointOr(argb: bv32)
    ensures To16Bit(argb)
         == ((Red(argb) >> 3) as bv16 << 11) | ((Green(argb) >> 2) as bv16 << 5) | (Blue(argb) >> 3) as bv16
  {
    var q := ((Red(argb) >> 3) as bv16 << 11) | ((Green(argb) >> 2) as bv16 << 5) | (Blue(argb) >> 3) as bv16;
    FieldsDetermineWord(To16Bit(argb), q);
  }

  /** Packing depends on the colour channels only: the alpha byte is dropped. */
  lemma PackIgnoresAlpha(x: bv32, y: bv32)
    requires Red(x) == Red(y) && Green(x) == Green(y) && Blue(x) == Blue(y)
    ensures To16Bit(x) == To16Bit(y)
  {
    FieldsDetermineWord(To16Bit(x), To16Bit(y));
  }

  /** The primary colours pack to the maxima of their own fields and nothing else. */
  lemma PackPrimaries()
    ensures To16Bit(0xFF0000) == 31 << 11
    ensures To16Bit(0x00FF00) == 63 << 5
    ensures To16Bit(0x0000FF) == 31
    ensures To16Bit(0xFFFFFFFF) == 0xFFFF
    ensures To16Bit(0xFF000000) == 0
  {
    FieldsDetermineWord(To16Bit(0xFF0000), 31 << 11);
    FieldsDetermineWord(To16Bit(0x00FF00), 63 << 5);
    FieldsDetermineWord(To16Bit(0x0000FF), 31);
    FieldsDetermineWord(To16Bit(0xFFFFFFFF), 0xFFFF);
    FieldsDetermineWord(To16Bit(0xFF000000), 0);
  }

  /**
    `from_16bit` as written: red and green are shifted back up by 3 and 2, but
    blue is shifted by 2 and masked to a byte, so the low bit of the green
    field lands in the top bit of the blue byte and the blue field is halved.
   */
  function From16Bit(p: bv16): (argb: bv32)
    ensures Alpha(argb) == 0
    ensures Red(argb) == (Red5(p) as bv8) << 3
    ensures Green(argb) == (Green6(p) as bv8) << 2
    ensures Blue(argb) == ((Green6(p) & 1) as bv8 << 7) | ((Blue5(p) as bv8) << 2)
  {
    var w := p as bv32;
    var r := 0xFF & ((w >> 11) << 3);
    var g := 0xFF & ((w >> 5) << 2);
    var b := 0xFF & (w << 2);
    (r << 16) + (g << 8) + b
  }

  /**
    Packing then unpacking with the code as written: red and green come back
    with their dropped low bits cleared, the alpha byte comes back as zero, and
    the blue byte is the kept blue bits shifted one place too little, topped by
    bit 2 of green.
   */
  lemma UnpackAfterPack(x: bv32)
    ensures Alpha(From16Bit(To16Bit(x))) == 0
    ensures Red(From16Bit(To16Bit(x))) == Red(x) & 0xF8
    ensures Green(From16Bit(To16Bit(x))) == Green(x) & 0xFC
    ensures Blue(From16Bit(To16Bit(x))) == (((Green(x) >> 2) & 1) << 7) | ((Blue(x) & 0xF8) >> 1)
  {
    var p := To16Bit(x);
    var y := From16Bit(p);
    var r, g, b := Red(x), Green(x), Blue(x);
    ShiftBack5(r, Red5(p));
    ShiftBack6(g, Green6(p));
    assert Blue(y) == ((Green6(p) & 1) as bv8 << 7) | ((Blue5(p) as bv8) << 2);
    BlueAsWritten(g, b, Green6(p), Blue5(p));
  }

  /** A 5-bit field cut from a channel, shifted back by 3, is the channel with its low 3 bits cleared. */
  lemma ShiftBack5(c: bv8, f: bv16)
    requires f == (c >> 3) as bv16
    ensures (f as bv8) << 3 == c & 0xF8
  {
  }

  /** A 6-bit field cut from a channel, shifted back by 2, is the channel with its low 2 bits cleared. */
  lemma ShiftBack6(c: bv8, f: bv16)
    requires f == (c >> 2) as bv16
    ensures (f as bv8) << 2 == c & 0xFC
  {
  }

  /** The blue byte `from_16bit` rebuilds from the fields cut from green `g` and blue `b`. */
  lemma BlueAsWritten(g: bv8, b: bv8, gf: bv16, bf: bv16)
    requires gf == (g >> 2) as bv16 && bf == (b >> 3) as bv16
    ensures ((gf & 1) as bv8 << 7) | ((bf as bv8) << 2) == (((g >> 2) & 1) << 7) | ((b & 0xF8) >> 1)
  {
  }

  /** The words that RGB565 represents exactly: no alpha, and zero in the bits packing drops. */
  predicate Representable(x: bv32)
  {
    Alpha(x) == 0 && Red(x) & 7 == 0 && Green(x) & 3 == 0 && Blue(x) & 7 == 0
  }

  /** The unpacker as written does not return a representable blue: 0x0000F8 comes back as 0x00007C. */
  lemma UnpackLosesBlue()
    ensures Representable(0x0000F8)
    ensures To16Bit(0x0000F8) == 0x1F
    ensures From16Bit(To16Bit(0x0000F8)) == 0x00007C
  {
    FieldsDetermineWord(To16Bit(0x0000F8), 0x1F);
  }

  /** The unpacker as written also lets green leak into blue: 0x000400 comes back as 0x000480. */
  lemma UnpackLeaksGreen()
    ensures Representable(0x000400)
    ensures From16Bit(To16Bit(0x000400)) == 0x000480
  {
    FieldsDetermineWord(To16Bit(0x000400), 0x20);
  }

  /** The unpacker with blue shifted back by 3, the counterpart of red's shift. */
  function From16BitCorrected(p: bv16): (argb: bv32)
    ensures Alpha(argb) == 0
    ensures Red(argb) == (Red5(p) as bv8) << 3
    ensures Green(argb) == (Green6(p) as bv8) << 2
    ensures Blue(argb) == (Blue5(p) as bv8) << 3
  {
    var w := p as bv32;
    var r := 0xFF & ((w >> 11) << 3);
    var g := 0xFF & ((w >> 5) << 2);
    var b := 0xFF & ((w & 0x1F) << 3);
    (r << 16) + (g << 8) + b
  }

  /** An ARGB word is determined by its four channels. */
  lemma ChannelsDetermineWord(x: bv32, y: bv32)
    requires Alpha(x) == Alpha(y) && Red(x) == Red(y) && Green(x) == Green(y) && Blue(x) == Blue(y)
    ensures x == y
  {
  }

  /** With the corrected unpacker, unpacking a packed word clears exactly the bits packing drops. */
  lemma CorrectedUnpackAfterPack(x: bv32)
    ensures From16BitCorrected(To16Bit(x)) == x & 0x00F8FCF8
  {
    CorrectedChannelsAfterPack(x);
    SameChannelsAsMasked(x, From16BitCorrected(To16Bit(x)));
  }

  /** Channel by channel, the corrected unpacker returns what packing kept. */
  lemma CorrectedChannelsAfterPack(x: bv32)
    ensures Alpha(From16BitCorrected(To16Bit(x))) == 0
    ensures Red(From16BitCorrected(To16Bit(x))) == Red(x) & 0xF8
    ensures Green(From16BitCorrected(To16Bit(x))) == Green(x) & 0xFC
    ensures Blue(From16BitCorrected(To16Bit(x))) == Blue(x) & 0xF8
  {
    var p := To16Bit(x);
    var y := From16BitCorrected(p);
    var r, g, b := Red(x), Green(x), Blue(x);
    ShiftBack5(r, Red5(p));
    ShiftBack6(g, Green6(p));
    ShiftBack5(b, Blue5(p));
  }

  /** A word whose channels are those of `x` with the bits packing drops cleared is `x` masked. */
  lemma SameChannelsAsMasked(x: bv32, y: bv32)
    requires Alpha(y) == 0 && Red(y) == Red(x) & 0xF8 && Green(y) == Green(x) & 0xFC && Blue(y) == Blue(x) & 0xF8
    ensures y == x & 0x00F8FCF8
  {
    MaskChannels(x);
    ChannelsDetermineWord(y, x & 0x00F8FCF8);
  }

  /** Masking an ARGB word with 0x00F8FCF8 clears alpha and the low bits of each channel. */
  lemma MaskChannels(x: bv32)
    ensures Alpha(x & 0x00F8FCF8) == 0
    ensures Red(x & 0x00F8FCF8) == Red(x) & 0xF8
    ensures Green(x & 0x00F8FCF8) == Green(x) & 0xFC
    ensures Blue(x & 0x00F8FCF8) == Blue(x) & 0xF8
  {
  }

  /** With the corrected unpacker, every representable word survives a pack and unpack. */
  lemma CorrectedRoundTrip(x: bv32)
    requires Representable(x)
    ensures From16BitCorrected(To16Bit(x)) == x
  {
    CorrectedUnpackAfterPack(x);
    MaskKeepsRepresentable(x);
  }

  /** Clearing the bits packing drops changes nothing in a representable word. */
  lemma MaskKeepsRepresentable(x: bv32)
    requires Representable(x)
    ensures x & 0x00F8FCF8 == x
  {
    assert Alpha(x) == 0 ==> x & 0xFF000000 == 0;
    assert Red(x) & 7 == 0 ==> x & 0x070000 == 0;
    assert Green(x) & 3 == 0 ==> x & 0x0300 == 0;
    assert Blue(x) & 7 == 0 ==> x & 0x07 == 0;
  }

  /** Packing then unpacking with the corrected unpacker leaves a packed word unchanged. */
  lemma PackAfterCorrectedUnpack(p: bv16)
    ensures To16Bit(From16BitCorrected(p)) == p
  {
    FieldsDetermineWord(To16Bit(From16BitCorrected(p)), p);
  }
}
