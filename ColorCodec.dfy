/** RGB to RGB565 packing (`_packColor` of the `Display` class in src/display.js). */
module ColorCodec {
  import opened FrameCodec

  /** A 5-bit (red or blue) and a 6-bit (green) colour field. */
  type Field5 = f: nat | f < 0x20
  type Field6 = f: nat | f < 0x40

  /** `channel / 255 * 0x1f`, truncated to an integer by the `<<` that consumes it.
      The source computes in double precision; for every channel value in [0, 255] the
      rounded product truncates to the same integer as the exact quotient, so integer
      division stands for it. */
  function Scale5(channel: Byte): Field5
  {
    channel * 0x1F / 255
  }

  /** `channel / 255 * 0x3f`, truncated likewise. */
  function Scale6(channel: Byte): Field6
  {
    channel * 0x3F / 255
  }

  /** Each scaled channel is the largest field value `f` with `f * 255 <= channel * max`: the
      fraction `channel / 255` of the field's top value, rounded down. */
  lemma {:induction false} ScaleIsFloor(channel: Byte)
    ensures Scale5(channel) * 255 <= channel * 0x1F < (Scale5(channel) + 1) * 255
    ensures Scale6(channel) * 255 <= channel * 0x3F < (Scale6(channel) + 1) * 255
  {
  }

  /** A scaled channel is 0 exactly for the channels below one step of the field, and reaches
      the top of its field exactly for a full channel. */
  lemma {:induction false} ScaleRange(channel: Byte)
    ensures Scale5(channel) == 0x1F <==> channel == 255
    ensures Scale6(channel) == 0x3F <==> channel == 255
    ensures Scale5(channel) == 0 <==> channel < 9
    ensures Scale6(channel) == 0 <==> channel < 5
  {
    if channel < 255 {
      assert channel * 0x1F <= 254 * 0x1F;
      assert channel * 0x3F <= 254 * 0x3F;
    }
  }

  /** Scaling keeps the order of channel values. */
  lemma {:induction false} ScaleMonotonic(a: Byte, b: Byte)
    requires a <= b
    ensures Scale5(a) <= Scale5(b) && Scale6(a) <= Scale6(b)
  {
    assert a * 0x1F <= b * 0x1F;
    assert a * 0x3F <= b * 0x3F;
  }

  /** The red, green and blue fields of an RGB565 word: bits 15-11, 10-5 and 4-0. */
  function Unpack565(c: Word): (Field5, Field6, Field5)
  {
    (c / 0x800, (c / 0x20) % 0x40, c % 0x20)
  }

  /** `red << 11 | green << 5 | blue`: the three fields do not overlap, so `|` adds them,
      and each field reads back from its own bits. */
  function Pack565(red: Field5, green: Field6, blue: Field5): (c: Word)
    ensures c / 0x800 == red && (c / 0x20) % 0x40 == green && c % 0x20 == blue
  {
    Split(red * 0x800 + green * 0x20 + blue, red, green * 0x20 + blue, 0x800);
    Split(red * 0x800 + green * 0x20 + blue, red * 0x40 + green, blue, 0x20);
    Split(red * 0x40 + green, red, green, 0x40);
    red * 0x800 + green * 0x20 + blue
  }

  /** The RGB565 layout is a bijection between field triples and 16-bit words. */
  lemma {:induction false} Rgb565RoundTrip(red: Field5, green: Field6, blue: Field5, c: Word)
    ensures Unpack565(Pack565(red, green, blue)) == (red, green, blue)
    ensures var (r5, g6, b5) := Unpack565(c); Pack565(r5, g6, b5) == c
  {
    var hi := c / 0x20;
    Split(c, hi, c % 0x20, 0x20);
    Split(hi, c / 0x800, hi % 0x40, 0x40);
  }

  /** `_packColor(r, g, b)`: the channels scaled to 5, 6 and 5 bits and laid out as RGB565. */
  function PackColor(r: Byte, g: Byte, b: Byte): (c: Word)
    ensures c / 0x800 == Scale5(r) && (c / 0x20) % 0x40 == Scale6(g) && c % 0x20 == Scale5(b)
  {
    Pack565(Scale5(r), Scale6(g), Scale5(b))
  }

  /** Bits 15-11, 10-5 and 4-0 of a packed colour are `floor(r * 31 / 255)`,
      `floor(g * 63 / 255)` and `floor(b * 31 / 255)`. */
  lemma {:induction false} PackColorFields(r: Byte, g: Byte, b: Byte)
    ensures Unpack565(PackColor(r, g, b)) == (r * 31 / 255, g * 63 / 255, b * 31 / 255)
  {
  }

  /** Black and white are the all-zero and all-one words. */
  lemma BlackAndWhite()
    ensures PackColor(0, 0, 0) == 0x0000
    ensures PackColor(255, 255, 255) == 0xFFFF
  {
    ScaleRange(0);
    ScaleRange(255);
  }

  /** A full primary fills exactly its own field. */
  lemma Primaries()
    ensures PackColor(255, 0, 0) == 0xF800
    ensures PackColor(0, 255, 0) == 0x07E0
    ensures PackColor(0, 0, 255) == 0x001F
  {
    ScaleRange(0);
    ScaleRange(255);
  }
}
