/**
 * The two colour types the colour accessor goes through: `System.Drawing.Color`,
 * which keeps one packed ARGB value and reads its channels out of it, and
 * `System.Windows.Media.Color`, which keeps four separate channel bytes.
 */
module Argb {
  import opened Numeric

  /** Weights of the channels in the packed value: A is bits 24-31, R bits 16-23, G bits 8-15, B bits 0-7. */
  const AlphaWeight: int := 0x100_0000
  const RedWeight: int := 0x1_0000
  const GreenWeight: int := 0x100

  /** Packs four channels into one 32-bit ARGB value. */
  function Pack(a: Byte, r: Byte, g: Byte, b: Byte): (argb: UInt32)
  {
    a * AlphaWeight + r * RedWeight + g * GreenWeight + b
  }

  /** `System.Drawing.Color`: the packed value and its channel accessors. */
  datatype DrawingColor = DrawingColor(value: UInt32)
  {
    /** `(Value >> 24) & 0xFF` */
    function A(): Byte { value / AlphaWeight }
    /** `(Value >> 16) & 0xFF` */
    function R(): Byte { (value / RedWeight) % 0x100 }
    /** `(Value >> 8) & 0xFF` */
    function G(): Byte { (value / GreenWeight) % 0x100 }
    /** `Value & 0xFF` */
    function B(): Byte { value % 0x100 }
  }

  /** `System.Drawing.Color.FromArgb(int)`: keeps the 32 bits of a signed value. */
  function FromArgb(argb: Int32): (c: DrawingColor)
    ensures c.value == argb % TwoTo32
    ensures AsSigned(c.value) == argb
  {
    SignedUnsignedRoundTrip(argb);
    DrawingColor(AsUnsigned(argb))
  }

  /** `System.Windows.Media.Color`, built with `FromArgb(a, r, g, b)`. */
  datatype MediaColor = MediaColor(a: Byte, r: Byte, g: Byte, b: Byte)

  /** Re-packing the four channels of a drawing colour gives back its value. */
  lemma {:induction false} ChannelsRepack(c: DrawingColor)
    ensures Pack(c.A(), c.R(), c.G(), c.B()) == c.value
  {
    var v := c.value;
    var hi := v / RedWeight;
    var lo := v % RedWeight;
    assert v == hi * RedWeight + lo;
    assert hi == c.A() * 0x100 + c.R();
    assert lo == c.G() * GreenWeight + c.B();
  }

  /** Quotient and remainder by a positive `d` are determined by any `n == q * d + rem` with `0 <= rem < d`. */
  lemma {:induction false} DivModOf(n: int, d: int, q: int, rem: int)
    requires 0 < d && 0 <= rem < d && n == q * d + rem
    ensures n / d == q && n % d == rem
  {
    var q', rem' := n / d, n % d;
    assert n == q' * d + rem' && 0 <= rem' < d;
    if q' < q {
      MulMonotone(q' + 1, q, d);
    } else if q < q' {
      MulMonotone(q + 1, q', d);
    }
  }

  lemma {:induction false} MulMonotone(x: int, y: int, d: int)
    requires x <= y && 0 < d
    ensures x * d <= y * d
  {
    assert y * d - x * d == (y - x) * d;
  }

  /** Unpacking a packed value gives back each of the four channels unchanged. */
  lemma {:induction false} ChannelsOfPack(a: Byte, r: Byte, g: Byte, b: Byte)
    ensures var c := DrawingColor(Pack(a, r, g, b));
            c.A() == a && c.R() == r && c.G() == g && c.B() == b
  {
    var v := Pack(a, r, g, b);
    DivModOf(v, AlphaWeight, a, r * RedWeight + g * GreenWeight + b);
    DivModOf(v, RedWeight, a * 0x100 + r, g * GreenWeight + b);
    DivModOf(a * 0x100 + r, 0x100, a, r);
    DivModOf(v, GreenWeight, a * RedWeight + r * 0x100 + g, b);
    DivModOf(a * RedWeight + r * 0x100 + g, 0x100, a * 0x100 + r, g);
    DivModOf(v, 0x100, a * RedWeight + r * 0x100 + g, b);
  }

  /**
   * The round trip through the signed form: pack four channels, read the bits as a
   * signed `int` (as the platform hands them over), convert back with `FromArgb`,
   * and every channel comes out as it went in.
   */
  lemma ArgbRoundTrip(a: Byte, r: Byte, g: Byte, b: Byte)
    ensures var c := FromArgb(AsSigned(Pack(a, r, g, b)));
            c.A() == a && c.R() == r && c.G() == g && c.B() == b
  {
    ChannelsOfPack(a, r, g, b);
  }
}
