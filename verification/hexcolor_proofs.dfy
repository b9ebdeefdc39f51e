/** What `hexToColor` computes, stated with the positional value of the digit
    string: which strings parse, what the channels are, and the round trip
    from a colour to six hex digits and back. */
module HexColorProofs {
  import opened Wrappers
  import opened Bits
  import opened HexColor

  predicate AllHex(s: string)
  {
    forall i | 0 <= i < |s| :: IsHexDigit(s[i])
  }

  function Pow16(k: nat): nat
  {
    if k == 0 then 1 else 16 * Pow16(k - 1)
  }

  /** The value of a string of hex digits, most significant first; `k`
      digits are worth less than `16^k`. */
  function HexValue(s: string): (v: nat)
    requires AllHex(s)
    ensures v < Pow16(|s|)
  {
    if s == [] then 0
    else
      var init := s[..|s| - 1];
      assert AllHex(init) by {
        forall i | 0 <= i < |init| ensures IsHexDigit(init[i]) { assert init[i] == s[i]; }
      }
      HexValue(init) * 16 + DigitValue(s[|s| - 1]).value
  }

  /** The value of a digit pair, as a channel. */
  function PairValue(s: string): uint8
    requires |s| == 2 && AllHex(s)
  {
    assert Pow16(2) == 256;
    HexValue(s) as uint8
  }

  /** A prefix of a digit string is worth no more than the whole string. */
  lemma {:induction false} PrefixValueBelow(s: string, j: nat)
    requires AllHex(s) && j <= |s|
    ensures AllHex(s[..j]) && HexValue(s[..j]) <= HexValue(s)
    decreases |s|
  {
    assert AllHex(s[..j]) by {
      forall i | 0 <= i < j ensures IsHexDigit(s[..j][i]) { assert s[..j][i] == s[i]; }
    }
    if j == |s| {
      assert s[..j] == s;
    } else {
      var init := s[..|s| - 1];
      assert init[..j] == s[..j];
      assert HexValue(s) == HexValue(init) * 16 + DigitValue(s[|s| - 1]).value;
      PrefixValueBelow(init, j);
    }
  }

  /** The scan from position `i`, started with the value of the digits before
      `i`, succeeds exactly when the whole string is digits and its value
      fits in 64 bits, and then yields that value. */
  lemma {:induction false} ScanComputesValue(s: string, i: nat)
    requires i <= |s| && AllHex(s[..i]) && HexValue(s[..i]) <= MaxUint64
    ensures Scan(s, i, HexValue(s[..i])).Parsed? <==> AllHex(s) && HexValue(s) <= MaxUint64
    ensures Scan(s, i, HexValue(s[..i])).Parsed? ==> Scan(s, i, HexValue(s[..i])).value == HexValue(s)
    ensures AllHex(s) && HexValue(s) > MaxUint64 ==> Scan(s, i, HexValue(s[..i])) == Failed(ErrRange)
    decreases |s| - i
  {
    if i == |s| {
      assert s[..i] == s;
    } else if !IsHexDigit(s[i]) {
      assert !AllHex(s);
    } else {
      var n, d := HexValue(s[..i]), DigitValue(s[i]).value;
      NextDigit(s, i);
      if n >= Cutoff || n * 16 + d > MaxUint64 {
        if n >= Cutoff {
          MulMonotone(Cutoff, n, 16);
        }
        if AllHex(s) {
          PrefixValueBelow(s, i + 1);
        }
      } else {
        ScanComputesValue(s, i + 1);
      }
    }
  }

  /** Reading one more digit multiplies the value so far by 16 and adds it. */
  lemma NextDigit(s: string, i: nat)
    requires i < |s| && AllHex(s[..i]) && IsHexDigit(s[i])
    ensures AllHex(s[..i + 1])
    ensures HexValue(s[..i + 1]) == HexValue(s[..i]) * 16 + DigitValue(s[i]).value
  {
    assert s[..i + 1] == s[..i] + [s[i]];
    LastDigitStep(s[..i], s[i]);
  }

  /** `ParseUint(s, 16, 0)` succeeds exactly on non-empty hex digit strings
      whose value fits in 64 bits, and returns that value; a digit string
      that is too large is a range error. */
  lemma ParseUint16Agrees(s: string)
    ensures ParseUint16(s).Parsed? <==> s != [] && AllHex(s) && HexValue(s) <= MaxUint64
    ensures ParseUint16(s).Parsed? ==> ParseUint16(s).value == HexValue(s)
    ensures s != [] && AllHex(s) && HexValue(s) > MaxUint64 ==> ParseUint16(s) == Failed(ErrRange)
  {
    if s != [] {
      assert s[..0] == [];
      ScanComputesValue(s, 0);
    }
  }

  /** The channels are the bytes of the parsed value at bits 16, 8 and 0;
      anything above bit 24 is dropped, and alpha is always opaque. */
  lemma ChannelsAreBytes(h: string)
    requires ParseUint16(h).Parsed?
    ensures var u := ParseUint16(h).value;
      HexToColor(h) == RGBA(((u / 0x10000) % 256) as uint8, ((u / 0x100) % 256) as uint8, (u % 256) as uint8, 255)
  {
    var u := ParseUint16(h).value;
    MaskConstants();
    ByteAt(u, 16);
    ByteAt(u, 8);
    LowByte(u);
  }

  /** The masks and divisors `hexToColor` uses, as shifted byte masks. */
  lemma MaskConstants()
    ensures Ones(8) == 0xff
    ensures Shl(Ones(8), 8) == 0xff00 && Pow2(8) == 0x100
    ensures Shl(Ones(8), 16) == 0xff0000 && Pow2(16) == 0x10000
  {
  }

  lemma ConcatAllHex(a: string, b: string)
    requires AllHex(a) && AllHex(b)
    ensures AllHex(a + b)
  {
    forall i | 0 <= i < |a + b| ensures IsHexDigit((a + b)[i]) {
      if i < |a| { assert (a + b)[i] == a[i]; } else { assert (a + b)[i] == b[i - |a|]; }
    }
  }

  /** The value of two strings written one after the other. */
  lemma {:induction false} ValueOfConcat(a: string, b: string)
    requires AllHex(a) && AllHex(b)
    ensures AllHex(a + b) && HexValue(a + b) == HexValue(a) * Pow16(|b|) + HexValue(b)
    decreases |b|
  {
    ConcatAllHex(a, b);
    if b == [] {
      assert a + b == a;
    } else {
      var b', c := b[..|b| - 1], b[|b| - 1];
      assert b' + [c] == b && (a + b') + [c] == a + b;
      assert AllHex(b');
      ValueOfConcat(a, b');
      LastDigitStep(a + b', c);
      LastDigitStep(b', c);
      Distribute(HexValue(a), Pow16(|b'|), HexValue(b'));
    }
  }

  lemma Distribute(x: nat, p: nat, y: nat)
    ensures (x * p + y) * 16 == x * (16 * p) + y * 16
  {
  }

  /** Appending one digit multiplies by 16 and adds the digit. */
  lemma LastDigitStep(s: string, c: char)
    requires AllHex(s) && IsHexDigit(c)
    ensures AllHex(s + [c]) && HexValue(s + [c]) == HexValue(s) * 16 + DigitValue(c).value
  {
    ConcatAllHex(s, [c]);
    assert (s + [c])[..|s|] == s;
  }

  /** For the usual six-digit form `rrggbb`, each channel is the value of its
      digit pair. */
  lemma SixDigitChannels(h: string)
    requires |h| == 6 && AllHex(h)
    ensures ParseUint16(h).Parsed?
    ensures HexToColor(h) == RGBA(PairValue(h[0..2]), PairValue(h[2..4]), PairValue(h[4..6]), 255)
  {
    var rr, gg, bb := h[0..2], h[2..4], h[4..6];
    var r, g, b := PairValue(rr) as nat, PairValue(gg) as nat, PairValue(bb) as nat;
    SixDigitValue(h);
    PowersOf16();
    assert HexValue(h) < 0x1000000;
    ParseUint16Agrees(h);
    ChannelsAreBytes(h);
    SplitBytes(HexValue(h), r, g, b);
  }

  /** The value of `rrggbb` from its three pairs. */
  lemma SixDigitValue(h: string)
    requires |h| == 6 && AllHex(h)
    ensures AllHex(h[0..2]) && AllHex(h[2..4]) && AllHex(h[4..6])
    ensures HexValue(h) == HexValue(h[0..2]) * 0x10000 + HexValue(h[2..4]) * 0x100 + HexValue(h[4..6])
  {
    var front := h[..4];
    SplitAfter(h, 4);
    SplitAfter(front, 2);
    assert front[..2] == h[0..2] && front[2..] == h[2..4] && h[4..] == h[4..6];
    var r, g, b := HexValue(h[0..2]), HexValue(h[2..4]), HexValue(h[4..6]);
    assert HexValue(front) == r * 0x100 + g;
  }

  /** The value of a string from the values of its first `k` digits and the
      remaining two. */
  lemma SplitAfter(s: string, k: nat)
    requires AllHex(s) && k + 2 == |s|
    ensures AllHex(s[..k]) && AllHex(s[k..])
    ensures HexValue(s) == HexValue(s[..k]) * 0x100 + HexValue(s[k..])
  {
    SliceAllHex(s, 0, k);
    SliceAllHex(s, k, |s|);
    assert s[..k] + s[k..] == s;
    ValueOfConcat(s[..k], s[k..]);
    PowersOf16();
  }

  lemma SliceAllHex(s: string, i: nat, j: nat)
    requires AllHex(s) && i <= j <= |s|
    ensures AllHex(s[i..j])
  {
    forall k | 0 <= k < j - i ensures IsHexDigit(s[i..j][k]) { assert s[i..j][k] == s[i + k]; }
  }

  lemma PowersOf16()
    ensures Pow16(2) == 0x100 && Pow16(6) == 0x1000000
  {
  }

  /** Recovering three bytes from `r*2^16 + g*2^8 + b`. */
  lemma SplitBytes(u: nat, r: nat, g: nat, b: nat)
    requires r < 256 && g < 256 && b < 256 && u == r * 0x10000 + g * 0x100 + b
    ensures (u / 0x10000) % 256 == r && (u / 0x100) % 256 == g && u % 256 == b
  {
    DivModUnique(u, 0x10000, r, g * 0x100 + b);
    DivModUnique(u, 0x100, r * 0x100 + g, b);
    DivModUnique(r * 0x100 + g, 0x100, r, g);
  }

  /** The lower-case hex digit of a value below 16. */
  function DigitChar(d: nat): (c: char)
    requires d < 16
    ensures IsHexDigit(c) && DigitValue(c) == Some(d)
  {
    if d < 10 then ('0' as nat + d) as char else ('a' as nat + d - 10) as char
  }

  /** A channel written as two hex digits. */
  function ByteDigits(x: uint8): (s: string)
    ensures |s| == 2 && AllHex(s)
  {
    [DigitChar(x as nat / 16), DigitChar(x as nat % 16)]
  }

  /** A colour written as `rrggbb`. */
  function ToHex6(c: RGBA): (s: string)
    ensures |s| == 6 && AllHex(s)
  {
    ByteDigits(c.r) + ByteDigits(c.g) + ByteDigits(c.b)
  }

  lemma ByteDigitsValue(x: uint8)
    ensures PairValue(ByteDigits(x)) == x
  {
    var hi, lo := DigitChar(x as nat / 16), DigitChar(x as nat % 16);
    LastDigitStep([], hi);
    LastDigitStep([hi], lo);
    assert [] + [hi] == [hi] && [hi] + [lo] == ByteDigits(x);
    assert HexValue([hi, lo]) == (x as nat / 16) * 16 + x as nat % 16;
  }

  /** Writing a colour as six hex digits and parsing it back gives the colour
      with alpha forced to opaque. */
  lemma HexRoundTrip(c: RGBA)
    ensures ParseUint16(ToHex6(c)).Parsed?
    ensures HexToColor(ToHex6(c)) == c.(a := 255)
  {
    var h := ToHex6(c);
    SixDigitChannels(h);
    assert h[0..2] == ByteDigits(c.r) && h[2..4] == ByteDigits(c.g) && h[4..6] == ByteDigits(c.b);
    ByteDigitsValue(c.r);
    ByteDigitsValue(c.g);
    ByteDigitsValue(c.b);
    assert PairValue(ByteDigits(c.r)) == c.r;
  }

  /** The demo's background colour. */
  lemma BackgroundColor(h: string)
    requires h == "131a22"
    ensures ParseUint16(h).Parsed?
    ensures HexToColor(h) == RGBA(0x13, 0x1a, 0x22, 0xff)
  {
    assert h == ToHex6(RGBA(0x13, 0x1a, 0x22, 0xff));
    HexRoundTrip(RGBA(0x13, 0x1a, 0x22, 0xff));
  }
}
