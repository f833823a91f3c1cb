/** The packed 8-bit colour `ColorRGB`: construction from an ARGB word and
    the two packing functions.  Channels are `uint8_t` and packed words
    `uint32_t`; both are modelled as bounded integers, a shift by 8k bits as
    a multiplication or division by 256^k, and the `|` of the shifted,
    non-overlapping channels as their sum. */
module Color {

  type Byte = b: int | 0 <= b < 0x100
  type Word = w: int | 0 <= w < 0x1_0000_0000

  datatype ColorRGB = ColorRGB(alpha: Byte, red: Byte, green: Byte, blue: Byte)

  /** Four bytes, most significant first, assembled into one word. */
  function Pack(b3: Byte, b2: Byte, b1: Byte, b0: Byte): Word
  {
    b3 * 0x100_0000 + b2 * 0x1_0000 + b1 * 0x100 + b0
  }

  /** Byte `k` of a word (byte 0 is the least significant). */
  function ByteOf(w: Word, k: nat): Byte
    requires k < 4
  {
    if k == 0 then w % 0x100
    else if k == 1 then (w / 0x100) % 0x100
    else if k == 2 then (w / 0x1_0000) % 0x100
    else w / 0x100_0000
  }

  /** A packed word has its four bytes back at their positions, so `Pack`
      is injective. */
  lemma PackBytes(b3: Byte, b2: Byte, b1: Byte, b0: Byte)
    ensures var w := Pack(b3, b2, b1, b0);
            ByteOf(w, 3) == b3 && ByteOf(w, 2) == b2 && ByteOf(w, 1) == b1 && ByteOf(w, 0) == b0
  {
    var w := Pack(b3, b2, b1, b0);
    var q1 := b3 * 0x1_0000 + b2 * 0x100 + b1;
    assert w == q1 * 0x100 + b0;
    DivModUnique(w, 0x100, q1, b0);
    var q2 := b3 * 0x100 + b2;
    assert q1 == q2 * 0x100 + b1;
    DivModUnique(q1, 0x100, q2, b1);
    assert w == q2 * 0x1_0000 + (b1 * 0x100 + b0);
    DivModUnique(w, 0x1_0000, q2, b1 * 0x100 + b0);
    DivModUnique(q2, 0x100, b3, b2);
    assert w == b3 * 0x100_0000 + (b2 * 0x1_0000 + b1 * 0x100 + b0);
    DivModUnique(w, 0x100_0000, b3, b2 * 0x1_0000 + b1 * 0x100 + b0);
  }

  /** Every word is the packing of its own four bytes. */
  lemma {:induction false} BytesPack(w: Word)
    ensures Pack(ByteOf(w, 3), ByteOf(w, 2), ByteOf(w, 1), ByteOf(w, 0)) == w
  {
    var q1 := w / 0x100;
    assert w == q1 * 0x100 + ByteOf(w, 0);
    var q2 := q1 / 0x100;
    assert q1 == q2 * 0x100 + q1 % 0x100;
    assert q2 == w / 0x1_0000 by { DivDiv(w, 0x100, 0x100); }
    assert q2 / 0x100 == w / 0x100_0000 by { DivDiv(w, 0x1_0000, 0x100); }
    assert q2 == (q2 / 0x100) * 0x100 + q2 % 0x100;
  }

  lemma DivModUnique(n: int, d: int, q: int, r: int)
    requires d > 0 && 0 <= r < d && n == q * d + r
    ensures n / d == q && n % d == r
  {
    var q', r' := n / d, n % d;
    assert n == q' * d + r';
    var k := q' - q;
    assert k * d == r - r' by {
      assert q' * d - q * d == (q' - q) * d;
    }
    if k >= 1 {
      MulAtLeast(k, d);
    } else if k <= -1 {
      MulAtLeast(-k, d);
    }
  }

  lemma MulAtLeast(k: int, d: int)
    requires k >= 1 && d > 0
    ensures k * d >= d
  {
  }

  lemma DivDiv(n: nat, a: nat, b: nat)
    requires a > 0 && b > 0
    ensures n / a / b == n / (a * b)
  {
    var q := n / a / b;
    var r := (n / a) % b;
    assert n / a == q * b + r;
    assert n == (q * b + r) * a + n % a;
    assert n == q * (a * b) + (r * a + n % a);
    assert r * a + n % a < a * b by {
      assert r * a <= (b - 1) * a;
    }
    DivModUnique(n, a * b, q, r * a + n % a);
  }

  /** The default constructor: opaque black. */
  function Default(): (c: ColorRGB)
    ensures c.red == 0 && c.green == 0 && c.blue == 0
    ensures c.alpha == 255
  {
    ColorRGB(255, 0, 0, 0)
  }

  /** The ARGB constructor: alpha from bits 24-31, red from 16-23, green
      from 8-15 and blue from 0-7; the word is the packing of the four. */
  function FromARGB(argb: Word): (c: ColorRGB)
    ensures Pack(c.alpha, c.red, c.green, c.blue) == argb
  {
    BytesPack(argb);
    ColorRGB(argb / 0x100_0000, (argb / 0x1_0000) % 0x100, (argb / 0x100) % 0x100, argb % 0x100)
  }

  /** `toRGBA` as written: red, then BLUE, then GREEN, then alpha, from the
      most significant byte down. */
  function ToRGBA(c: ColorRGB): (w: Word)
    ensures ByteOf(w, 3) == c.red && ByteOf(w, 2) == c.blue
    ensures ByteOf(w, 1) == c.green && ByteOf(w, 0) == c.alpha
  {
    PackBytes(c.red, c.blue, c.green, c.alpha);
    c.red * 0x100_0000 + c.blue * 0x1_0000 + c.green * 0x100 + c.alpha
  }

  /** `toARGB` as written: alpha, red, then BLUE, then GREEN. */
  function ToARGB(c: ColorRGB): (w: Word)
    ensures ByteOf(w, 3) == c.alpha && ByteOf(w, 2) == c.red
    ensures ByteOf(w, 1) == c.blue && ByteOf(w, 0) == c.green
  {
    PackBytes(c.alpha, c.red, c.blue, c.green);
    c.alpha * 0x100_0000 + c.red * 0x1_0000 + c.blue * 0x100 + c.green
  }

  /** Packing then unpacking swaps the green and blue channels. */
  lemma PackUnpackSwapsGreenAndBlue(c: ColorRGB)
    ensures FromARGB(ToARGB(c)) == c.(green := c.blue, blue := c.green)
  {
    var w := ToARGB(c);
    var d := FromARGB(w);
    PackBytes(d.alpha, d.red, d.green, d.blue);
  }

  /** Unpacking then repacking an ARGB word gives it back exactly when its
      green and blue bytes agree. */
  lemma ARGBRoundTripIffGreenIsBlue(x: Word)
    ensures ToARGB(FromARGB(x)) == x <==> ByteOf(x, 1) == ByteOf(x, 0)
  {
    var c := FromARGB(x);
    PackBytes(c.alpha, c.red, c.green, c.blue);
    var y := ToARGB(c);
    BytesPack(y);
    BytesPack(x);
  }
}
