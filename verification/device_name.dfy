/**
  Recognition of device names. `starts_with` decides whether a name selects
  the simulated device, and the `sscanf(name, "dummy_%dx%d", ...)` call reads
  the simulated geometry out of the name.

  Names are Java strings delivered through JNI as modified UTF-8, which never
  contains a NUL byte. A name is modelled as its sequence of characters, while
  `strlen` and `strncmp` count bytes; the two agree on every question asked
  here, because "dummy_", the digits and 'x' are ASCII and every byte of a
  multi-byte character is 0x80 or above, so it never matches one of them.
 */
module DeviceName {
  import opened Nullable

  /** The prefix that selects the simulated device. */
  const DummyPrefix: string := "dummy_"

  /**
    `strncmp(a, b, n) == 0` on strings without NUL bytes and at least `n`
    characters long: the first `n` characters agree.
   */
  function StrnEqual(a: string, b: string, n: nat): (r: bool)
    requires n <= |a| && n <= |b|
    ensures r <==> a[..n] == b[..n]
  {
    if n == 0 then true
    else
      assert a[..n] == [a[0]] + a[1..][..n - 1];
      assert b[..n] == [b[0]] + b[1..][..n - 1];
      a[0] == b[0] && StrnEqual(a[1..], b[1..], n - 1)
  }

  /** `starts_with(pre, str)`: `str` is at least as long as `pre` and begins with it. */
  function StartsWith(pre: string, str: string): (r: bool)
    ensures r <==> |pre| <= |str| && str[..|pre|] == pre
  {
    if |str| < |pre| then false else StrnEqual(pre, str, |pre|)
  }

  /** Whether a name selects the simulated device. */
  predicate IsDummyName(name: string)
  {
    StartsWith(DummyPrefix, name)
  }

  lemma DummyNameIsPrefixed(rest: string)
    ensures IsDummyName(DummyPrefix + rest)
    ensures !IsDummyName("/dev/fb1")
    ensures !IsDummyName("dummy")
  {
    assert (DummyPrefix + rest)[..|DummyPrefix|] == DummyPrefix;
    assert "/dev/fb1"[..|DummyPrefix|] != DummyPrefix by {
      assert "/dev/fb1"[0] != DummyPrefix[0];
    }
  }

  predicate IsDigit(c: char)
  {
    '0' <= c <= '9'
  }

  predicate AllDigits(s: string)
  {
    forall i :: 0 <= i < |s| ==> IsDigit(s[i])
  }

  function DigitValue(c: char): nat
    requires IsDigit(c)
  {
    (c - '0') as nat
  }

  /** The number a string of decimal digits denotes, most significant digit first. */
  function DecimalValue(s: string): nat
    requires AllDigits(s)
  {
    if |s| == 0 then 0 else 10 * DecimalValue(s[..|s| - 1]) + DigitValue(s[|s| - 1])
  }

  /** The length of the run of digits that starts `s`. */
  function DigitRun(s: string): (n: nat)
    ensures n <= |s|
    ensures AllDigits(s[..n])
    ensures n < |s| ==> !IsDigit(s[n])
  {
    if |s| == 0 || !IsDigit(s[0]) then 0
    else
      var n := 1 + DigitRun(s[1..]);
      assert s[..n] == [s[0]] + s[1..][..n - 1];
      n
  }

  /**
    A `%d` conversion restricted to plain decimal digits: the longest run of
    digits at the head of `s`, with its value and the rest of the input, or
    `None` (a matching failure) when `s` does not start with a digit.
   */
  function ScanDecimal(s: string): (r: Option<(nat, string)>)
    ensures r.None? <==> |s| == 0 || !IsDigit(s[0])
    ensures r.Some? ==> exists d :: AllDigits(d) && |d| > 0 && s == d + r.value.1
                                    && r.value.0 == DecimalValue(d)
                                    && (r.value.1 == [] || !IsDigit(r.value.1[0]))
  {
    var n := DigitRun(s);
    if n == 0 then None
    else
      assert s == s[..n] + s[n..];
      Some((DecimalValue(s[..n]), s[n..]))
  }

  /**
    What `sscanf(name, "dummy_%dx%d", &width, &height)` stores: each target is
    filled only when its conversion succeeds, and the scan stops at the first
    mismatch, so a target it does not reach is left as it was.
   */
  datatype Scanned = Scanned(width: Option<nat>, height: Option<nat>)

  function ScanDummy(name: string): (r: Scanned)
    ensures r.height.Some? ==> r.width.Some?
    ensures !IsDummyName(name) ==> r == Scanned(None, None)
  {
    if !StartsWith(DummyPrefix, name) then Scanned(None, None)
    else
      var width := ScanDecimal(name[|DummyPrefix|..]);
      if width.None? then Scanned(None, None)
      else Scanned(Some(width.value.0), ScanHeight(width.value.1))
  }

  /** The "x%d" part of the format, applied to what follows the width. */
  function ScanHeight(s: string): Option<nat>
  {
    if |s| == 0 || s[0] != 'x' then None
    else
      var height := ScanDecimal(s[1..]);
      if height.None? then None else Some(height.value.0)
  }

  /** Decimal digits, most significant first and without leading zeros, as the caller would format a dimension. */
  function Decimal(n: nat): (s: string)
    ensures |s| > 0 && AllDigits(s)
  {
    var d := ['0' + (n % 10) as char];
    if n < 10 then d else Decimal(n / 10) + d
  }

  lemma {:induction false} DecimalValueOfDecimal(n: nat)
    ensures DecimalValue(Decimal(n)) == n
  {
    var s := Decimal(n);
    if n >= 10 {
      assert s[..|s| - 1] == Decimal(n / 10);
      DecimalValueOfDecimal(n / 10);
    }
  }

  /** A run of digits followed by a non-digit scans to the value of the run. */
  lemma {:induction false} DigitRunOfDigits(d: string, rest: string)
    requires AllDigits(d)
    requires rest == [] || !IsDigit(rest[0])
    ensures DigitRun(d + rest) == |d|
  {
    if |d| > 0 {
      assert (d + rest)[1..] == d[1..] + rest;
      DigitRunOfDigits(d[1..], rest);
    }
  }

  lemma ScanDecimalOfDigits(d: string, rest: string)
    requires AllDigits(d) && |d| > 0
    requires rest == [] || !IsDigit(rest[0])
    ensures ScanDecimal(d + rest) == Some((DecimalValue(d), rest))
  {
    DigitRunOfDigits(d, rest);
    assert (d + rest)[..|d|] == d;
    assert (d + rest)[|d|..] == rest;
  }

  /** Concatenation is associative. */
  lemma ConcatAssoc(a: string, b: string, c: string)
    ensures a + b + c == a + (b + c)
  {
  }

  /** A concatenation splits back into its two parts. */
  lemma SplitAtPrefix(p: string, s: string)
    ensures (p + s)[..|p|] == p
    ensures (p + s)[|p|..] == s
  {
  }

  /**
    A name "dummy_" W "x" H, with W and H runs of digits and anything that
    does not start with a digit after them, fills both dimensions.
   */
  lemma ScanDummyDigits(dw: string, dh: string, rest: string)
    requires AllDigits(dw) && |dw| > 0 && AllDigits(dh) && |dh| > 0
    requires rest == [] || !IsDigit(rest[0])
    ensures ScanDummy(DummyPrefix + dw + "x" + dh + rest)
         == Scanned(Some(DecimalValue(dw)), Some(DecimalValue(dh)))
  {
    var tail := "x" + (dh + rest);
    ConcatAssoc(DummyPrefix + dw, "x", dh);
    ConcatAssoc(DummyPrefix + dw, "x" + dh, rest);
    ConcatAssoc("x", dh, rest);
    ConcatAssoc(DummyPrefix, dw, tail);
    SplitAtPrefix(DummyPrefix, dw + tail);
    ScanDecimalOfDigits(dw, tail);
    SplitAtPrefix("x", dh + rest);
    ScanDecimalOfDigits(dh, rest);
    assert ScanHeight(tail) == Some(DecimalValue(dh));
  }

  /** The name the caller formats for a W by H simulated device scans back to W and H. */
  lemma ScanDummyFormatted(w: nat, h: nat)
    ensures ScanDummy(DummyPrefix + Decimal(w) + "x" + Decimal(h))
         == Scanned(Some(w), Some(h))
  {
    ScanDummyDigits(Decimal(w), Decimal(h), []);
    assert DummyPrefix + Decimal(w) + "x" + Decimal(h) + [] == DummyPrefix + Decimal(w) + "x" + Decimal(h);
    DecimalValueOfDecimal(w);
    DecimalValueOfDecimal(h);
  }

  /** A width not followed by 'x' and a digit fills the width only. */
  lemma ScanDummyWidthOnly(dw: string, rest: string)
    requires AllDigits(dw) && |dw| > 0
    requires rest == [] || (!IsDigit(rest[0]) && (rest[0] != 'x' || |rest| == 1 || !IsDigit(rest[1])))
    ensures ScanDummy(DummyPrefix + dw + rest) == Scanned(Some(DecimalValue(dw)), None)
  {
    assert DummyPrefix + dw + rest == DummyPrefix + (dw + rest);
    SplitAtPrefix(DummyPrefix, dw + rest);
    ScanDecimalOfDigits(dw, rest);
  }

  /** A name with no digit right after the prefix fills neither dimension. */
  lemma ScanDummyNoDigits(rest: string)
    requires rest == [] || !IsDigit(rest[0])
    ensures ScanDummy(DummyPrefix + rest) == Scanned(None, None)
  {
    SplitAtPrefix(DummyPrefix, rest);
  }
}
