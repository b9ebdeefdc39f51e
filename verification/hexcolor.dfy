/** The demo's `hexToColor`: a colour written as hexadecimal digits `rrggbb`
    is parsed with `strconv.ParseUint(h, 16, 0)` (an unsigned parse at the
    width of Go's `uint`, taken here as 64 bits; the demo panics on error) and
    split into opaque RGBA channels with masks and shifts. */
module HexColor {
  import opened Wrappers
  import opened Bits

  newtype uint8 = x: int | 0 <= x < 256

  /** The largest `uint` on a 64-bit platform, the bound of bit size 0. */
  const MaxUint64: nat := 0xffff_ffff_ffff_ffff

  /** `ParseUint`'s overflow threshold for base 16: `maxUint64/16 + 1`. */
  const Cutoff: nat := MaxUint64 / 16 + 1

  /** `strconv.ErrSyntax` and `strconv.ErrRange`. */
  datatype NumError = ErrSyntax | ErrRange

  datatype ParseResult = Parsed(value: nat) | Failed(err: NumError)

  /** `color.RGBA`. */
  datatype RGBA = RGBA(r: uint8, g: uint8, b: uint8, a: uint8)

  predicate IsHexDigit(c: char)
  {
    ('0' <= c <= '9') || ('a' <= c <= 'f') || ('A' <= c <= 'F')
  }

  /** The digit value `ParseUint` gives a character in base 16. Letters past
      `f` get a value of 16 or more there, which is rejected like any other
      non-digit, so they have no value here. */
  function DigitValue(c: char): (r: Option<nat>)
    ensures r.Some? <==> IsHexDigit(c)
    ensures r.Some? ==> r.value < 16
  {
    if '0' <= c <= '9' then Some(c as nat - '0' as nat)
    else if 'a' <= c <= 'f' then Some(c as nat - 'a' as nat + 10)
    else if 'A' <= c <= 'F' then Some(c as nat - 'A' as nat + 10)
    else None
  }

  /** The digit loop of `ParseUint` from position `i` with `n` accumulated:
      a non-digit is a syntax error; `n >= cutoff` (so `n*16` would overflow)
      or `n*16 + d > maxUint64` is a range error. */
  function Scan(s: string, i: nat, n: nat): (r: ParseResult)
    requires i <= |s| && n <= MaxUint64
    ensures r.Parsed? ==> r.value <= MaxUint64
    decreases |s| - i
  {
    if i == |s| then Parsed(n)
    else match DigitValue(s[i])
      case None => Failed(ErrSyntax)
      case Some(d) =>
        if n >= Cutoff then Failed(ErrRange)
        else
          var n1 := n * 16 + d;
          if n1 > MaxUint64 then Failed(ErrRange) else Scan(s, i + 1, n1)
  }

  /** `strconv.ParseUint(s, 16, 0)` with a 64-bit `uint`: no sign, no `0x`
      prefix and no underscores are accepted in base 16, and the empty string
      is a syntax error. */
  function ParseUint16(s: string): (r: ParseResult)
    ensures s == [] ==> r == Failed(ErrSyntax)
    ensures r.Parsed? ==> r.value <= MaxUint64
  {
    if s == [] then Failed(ErrSyntax) else Scan(s, 0, 0)
  }

  /** `hexToColor`. The source panics when the parse fails, so callers must
      pass a parsable string. Go gives `&` and `>>` the same precedence, left
      to right, so `u & 0xff0000 >> 16` is `(u & 0xff0000) >> 16`. */
  function HexToColor(h: string): (c: RGBA)
    requires ParseUint16(h).Parsed?
    ensures c.a == 255
  {
    var u := ParseUint16(h).value;
    RGBA(
      Uint8(Shr(BitAnd(u, 0xff0000), 16)) as uint8,
      Uint8(Shr(BitAnd(u, 0xff00), 8)) as uint8,
      Uint8(BitAnd(u, 0xff)) as uint8,
      255)
  }
}
