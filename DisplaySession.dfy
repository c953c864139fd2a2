/** The `Display` class of src/display.js: a session bound to one serial port that turns
    display operations into ordered writes of command frames and pixel rows. */
module DisplaySession {
  import opened FrameCodec
  import opened ColorCodec
  import opened Transport

  /** `Display.Orientation`. Any other value passed as an orientation is treated as portrait. */
  const Landscape: int := 1
  const Portrait: int := 2

  /** `Display.Command`. `ResetCommand` and `SetBrightnessCommand` are declared but never sent. */
  const ResetCommand: int := 0x65
  const ClearCommand: int := 0x66
  const ToBlackCommand: int := 0x67
  const ScreenOffCommand: int := 0x6C
  const ScreenOnCommand: int := 0x6D
  const SetBrightnessCommand: int := 0x6E
  const SetOrientationCommand: int := 0x79
  const DisplayBitmapCommand: int := 0xC5

  /** The reset frame the constructor actually sends (not `ResetCommand`). */
  const StartupReset: int := 0xFF

  /** The parameterless frame sent before every orientation frame. */
  const OrientationPreamble: int := 0x7A

  /** The dimensions every `Display` is created with; no method ever changes them. */
  const BaseWidth: int := 320
  const BaseHeight: int := 480

  /** The flag byte of the orientation frame, `0x64 | reverseFlag | orientationFlag`: the
      reverse bit in bit 0 and the landscape bit in bit 1, over the fixed pattern 0x64. */
  function OrientationFlags(orientation: int, reverse: bool): (flags: Byte)
    ensures flags / 4 == 0x19
    ensures flags % 2 == 1 <==> reverse
    ensures (flags / 2) % 2 == 1 <==> orientation == Landscape
  {
    0x64 + (if reverse then 0x01 else 0x00) + (if orientation == Landscape then 0x02 else 0x00)
  }

  /** The width and height an orientation frame announces: the session's own, swapped for landscape. */
  function OrientedSize(orientation: int, width: int, height: int): (size: (int, int))
    ensures multiset{size.0, size.1} == multiset{width, height}
    ensures orientation != Landscape ==> size == (width, height)
  {
    if orientation == Landscape then (height, width) else (width, height)
  }

  /** The two writes of `setOrientation(orientation, reverse)` on a session of the given size. */
  function OrientationWrites(orientation: int, reverse: bool, width: int, height: int): (writes: seq<seq<Byte>>)
    ensures |writes| == 2 && |writes[0]| == 16 && |writes[1]| == 16
  {
    var (w, h) := OrientedSize(orientation, width, height);
    [ AppendBytes(CommandFrame(OrientationPreamble), Zeros(10)),
      AppendBytes(CommandFrame(SetOrientationCommand),
                  [OrientationFlags(orientation, reverse)] + PackUInt16(w) + PackUInt16(h) + Zeros(5)) ]
  }

  /** `setOrientation` writes two 16-byte buffers: the 0x7A frame and ten zero bytes, then the
      0x79 frame, the flag byte, the width and the height as little-endian 16-bit numbers,
      and five zero bytes. */
  lemma {:induction false} OrientationWritesLayout(orientation: int, reverse: bool, width: int, height: int)
    ensures var writes := OrientationWrites(orientation, reverse, width, height);
            var (w, h) := OrientedSize(orientation, width, height);
            |writes| == 2 && |writes[0]| == 16 && |writes[1]| == 16
            && writes[0] == CommandFrame(OrientationPreamble) + Zeros(10)
            && writes[1][..6] == CommandFrame(SetOrientationCommand)
            && writes[1][6] == OrientationFlags(orientation, reverse)
            && ReadUInt16(writes[1][7..9]) == w % 0x1_0000
            && ReadUInt16(writes[1][9..11]) == h % 0x1_0000
            && writes[1][11..] == Zeros(5)
  {
    var (w, h) := OrientedSize(orientation, width, height);
    AppendBytesSuffix(CommandFrame(OrientationPreamble), Zeros(10));
    var tail := [OrientationFlags(orientation, reverse)] + PackUInt16(w) + PackUInt16(h) + Zeros(5);
    AppendBytesSuffix(CommandFrame(SetOrientationCommand), tail);
    var second := CommandFrame(SetOrientationCommand) + tail;
    UInt16RoundTrip(w, [0, 0]);
    UInt16RoundTrip(h, [0, 0]);
    assert second[7..9] == PackUInt16(w);
    assert second[9..11] == PackUInt16(h);
    assert second[11..] == Zeros(5);
  }

  /** On the device's 320 x 480 panel, landscape announces 480 x 320 and every other
      orientation 320 x 480. */
  lemma {:induction false} PanelOrientationSize(orientation: int, reverse: bool)
    ensures var writes := OrientationWrites(orientation, reverse, BaseWidth, BaseHeight);
            |writes| == 2 && |writes[1]| == 16
            && ReadUInt16(writes[1][7..9]) == (if orientation == Landscape then 480 else 320)
            && ReadUInt16(writes[1][9..11]) == (if orientation == Landscape then 320 else 480)
  {
    OrientationWritesLayout(orientation, reverse, BaseWidth, BaseHeight);
  }

  /** What the constructor sends: the 0xFF frame, then portrait orientation. */
  function StartupWrites(): (writes: seq<seq<Byte>>)
    ensures |writes| == 3 && |writes[0]| == FrameSize && |writes[1]| == 16 && |writes[2]| == 16
  {
    [CommandFrame(StartupReset)] + OrientationWrites(Portrait, false, BaseWidth, BaseHeight)
  }

  /** The constructor's writes: the 0xFF frame with zero parameters, then the two orientation
      writes for portrait, not reversed, announcing 320 x 480. */
  lemma {:induction false} StartupWritesLayout()
    ensures var writes := StartupWrites();
            |writes| == 3
            && writes[0] == CommandFrame(StartupReset) && writes[0][5] == 0xFF
            && writes[1] == CommandFrame(OrientationPreamble) + Zeros(10)
            && |writes[2]| == 16 && writes[2][5] == SetOrientationCommand && writes[2][6] == 0x64
            && ReadUInt16(writes[2][7..9]) == 320 && ReadUInt16(writes[2][9..11]) == 480
  {
    OrientationWritesLayout(Portrait, false, BaseWidth, BaseHeight);
    var writes := StartupWrites();
    assert writes[1..] == OrientationWrites(Portrait, false, BaseWidth, BaseHeight);
    assert writes[2][5] == writes[2][..6][5];
  }

  /** One pixel sample of a decoded image. */
  datatype Rgb = Rgb(r: Byte, g: Byte, b: Byte)

  /** A decoded image: `rows[y][x]` is the pixel `pixels.get(x, y, ...)` reads. */
  datatype Raster = Raster(width: nat, height: nat, rows: seq<seq<Rgb>>)

  predicate WellShaped(img: Raster)
  {
    |img.rows| == img.height && forall y :: 0 <= y < |img.rows| ==> |img.rows[y]| == img.width
  }

  /** What the image decoder hands over: a `width` x `height` grid of pixels. */
  type Image = img: Raster | WellShaped(img) witness Raster(0, 0, [])

  /** The decoder's answer for the bytes given to `displayBitmap`. */
  datatype Decoded = Pixels(image: Image) | DecodeError

  /** The settlement of the promise `displayBitmap` returns: resolved after the last row,
      rejected on a decode error, or never settled when a write fails inside the decoder's
      callback (that rejection does not reach the returned promise). */
  datatype Outcome = Resolved | Rejected | Unsettled

  /** The colour words of image row `y`, left to right. */
  function RowColors(img: Image, y: nat): (words: seq<Word>)
    requires y < img.height
    ensures |words| == img.width
  {
    seq(img.width, x requires 0 <= x < img.width => PackColor(img.rows[y][x].r, img.rows[y][x].g, img.rows[y][x].b))
  }

  /** `new Uint8Array(words.buffer)` on a little-endian host: each word as two bytes, low byte first. */
  function WordBytes(words: seq<Word>): (bytes: seq<Byte>)
    ensures |bytes| == 2 * |words|
  {
    if words == [] then [] else PackUInt16(words[0]) + WordBytes(words[1..])
  }

  /** Bytes `2 i` and `2 i + 1` of the row buffer are word `i`, little-endian. */
  lemma {:induction false} WordBytesAt(words: seq<Word>, i: nat)
    requires i < |words|
    ensures WordBytes(words)[2 * i .. 2 * i + 2] == PackUInt16(words[i])
    ensures ReadUInt16(WordBytes(words)[2 * i .. 2 * i + 2]) == words[i]
  {
    if i == 0 {
      assert WordBytes(words)[..2] == PackUInt16(words[0]);
    } else {
      WordBytesAt(words[1..], i - 1);
      assert WordBytes(words)[2 * i .. 2 * i + 2] == WordBytes(words[1..])[2 * (i - 1) .. 2 * (i - 1) + 2];
    }
    UInt16RoundTrip(words[i], [0, 0]);
  }

  /** The writes of `displayBitmap(x, y, ...)` for a decoded image: the 0xC5 frame for the
      rectangle (x, y, x + w - 1, y + h - 1), then one buffer per image row, top to bottom. */
  function BitmapWrites(x: int, y: int, img: Image): (writes: seq<seq<Byte>>)
    ensures |writes| == img.height + 1 && |writes[0]| == FrameSize && writes[0][5] == DisplayBitmapCommand
  {
    [PackCommand(DisplayBitmapCommand, x, y, x + img.width - 1, y + img.height - 1)]
      + seq(img.height, row requires 0 <= row < img.height => WordBytes(RowColors(img, row)))
  }

  /** The header and row `r` of a bitmap stream. */
  lemma BitmapWritesParts(x: int, y: int, img: Image, r: nat)
    requires r < img.height
    ensures var writes := BitmapWrites(x, y, img);
            |writes| == img.height + 1
            && writes[0] == PackCommand(DisplayBitmapCommand, x, y, x + img.width - 1, y + img.height - 1)
            && writes[r + 1] == WordBytes(RowColors(img, r))
  {
  }

  /** The header of a bitmap stream names the target rectangle: the device reads back x, y,
      x + w - 1 and y + h - 1, each modulo 1024, and the opcode 0xC5. */
  lemma {:induction false} BitmapHeaderFields(x: int, y: int, img: Image)
    ensures var writes := BitmapWrites(x, y, img);
            |writes| == img.height + 1
            && UnpackCommand(writes[0])
               == Fields(DisplayBitmapCommand, x % 1024, y % 1024, (x + img.width - 1) % 1024, (y + img.height - 1) % 1024)
  {
    UnpackPackCommand(DisplayBitmapCommand, x, y, x + img.width - 1, y + img.height - 1);
  }

  /** After the header come exactly `height` rows of `2 * width` bytes; entry `c` of row `r`
      is the packed colour of pixel (c, r), least significant byte first. */
  lemma {:induction false} BitmapRowEntry(x: int, y: int, img: Image, r: nat, c: nat)
    requires r < img.height && c < img.width
    ensures var writes := BitmapWrites(x, y, img);
            var p := img.rows[r][c];
            |writes| == img.height + 1
            && |writes[r + 1]| == 2 * img.width
            && ReadUInt16(writes[r + 1][2 * c .. 2 * c + 2]) == PackColor(p.r, p.g, p.b)
  {
    BitmapWritesParts(x, y, img, r);
    WordBytesAt(RowColors(img, r), c);
  }

  /** A write failure on row `k` ends the stream there: the header and rows 0 .. k are on the
      port, and no later row is written. */
  lemma {:induction false} BitmapStopsAtFailedRow(x: int, y: int, img: Image, start: nat, faults: set<nat>, k: nat)
    requires k < img.height && Accepted(faults, start, k + 1) && start + k + 1 in faults
    ensures var writes := BitmapWrites(x, y, img);
            Issued(writes, start, faults) == writes[..k + 2] && |Issued(writes, start, faults)| == k + 2
  {
    IssuedStopsAtFault(BitmapWrites(x, y, img), start, faults, k + 1);
  }

  /** The body of the row loop of `displayBitmap`: fill the reused `Uint16Array` with 0xFFFF,
      then overwrite every entry, left to right, with the packed colour of its pixel. */
  method FillRow(colorData: array<Word>, img: Image, row: nat)
    requires row < img.height && colorData.Length == img.width
    modifies colorData
    ensures colorData[..] == RowColors(img, row)
  {
    forall i | 0 <= i < colorData.Length {
      colorData[i] := 0xFFFF;
    }
    var col := 0;
    while col < colorData.Length
      invariant 0 <= col <= colorData.Length
      invariant forall c :: 0 <= c < col ==> colorData[c] == RowColors(img, row)[c]
    {
      var p := img.rows[row][col];
      colorData[col] := PackColor(p.r, p.g, p.b);
      col := col + 1;
    }
  }

  /** A 4 x 4 solid red image drawn at (10, 20): the header names the rectangle
      (10, 20, 13, 23), and each of the four rows is four 0xF800 words, low byte first. */
  lemma {:induction false} RedSquare(img: Image)
    requires img.width == 4 && img.height == 4
    requires forall y, x :: 0 <= y < 4 && 0 <= x < 4 ==> img.rows[y][x] == Rgb(255, 0, 0)
    ensures var writes := BitmapWrites(10, 20, img);
            |writes| == 5
            && UnpackCommand(writes[0]) == Fields(DisplayBitmapCommand, 10, 20, 13, 23)
            && forall r :: 1 <= r < 5 ==> writes[r] == [0x00, 0xF8, 0x00, 0xF8, 0x00, 0xF8, 0x00, 0xF8]
  {
    var writes := BitmapWrites(10, 20, img);
    BitmapHeaderFields(10, 20, img);
    var red: seq<Word> := [0xF800, 0xF800, 0xF800, 0xF800];
    RedRowBytes();
    forall r | 1 <= r < 5
      ensures writes[r] == [0x00, 0xF8, 0x00, 0xF8, 0x00, 0xF8, 0x00, 0xF8]
    {
      Primaries();
      BitmapWritesParts(10, 20, img, r - 1);
      assert RowColors(img, r - 1) == red;
    }
  }

  /** Four 0xF800 words on the wire. */
  lemma {:induction false} RedRowBytes()
    ensures WordBytes([0xF800, 0xF800, 0xF800, 0xF800]) == [0x00, 0xF8, 0x00, 0xF8, 0x00, 0xF8, 0x00, 0xF8]
  {
    var red: seq<Word> := [0xF800, 0xF800, 0xF800, 0xF800];
    assert WordBytes(red[3..]) == [0x00, 0xF8];
    assert WordBytes(red[2..]) == [0x00, 0xF8] + WordBytes(red[3..]);
    assert WordBytes(red[1..]) == [0x00, 0xF8] + WordBytes(red[2..]);
  }

  /** The driver session. `port` is the open serial connection; `width` and `height` are
      assigned once, by the constructor. */
  class Display {
    const port: SerialPort
    var width: int
    var height: int

    /** `new Display(path)`: writes the 0xFF frame and, once that write succeeds, sets portrait
        orientation. A failure of either write is not reported to the caller. */
    constructor (port: SerialPort)
      modifies port
      ensures this.port == port && width == BaseWidth && height == BaseHeight
      ensures port.written == old(port.written) + Issued(StartupWrites(), |old(port.written)|, port.faults)
    {
      this.port := port;
      width := BaseWidth;
      height := BaseHeight;
      new;
      ghost var start := |port.written|;
      var ok := port.Write(CommandFrame(StartupReset));
      if ok {
        ok := SetOrientation(Portrait, false);
      }
      IssuedAppend([CommandFrame(StartupReset)], OrientationWrites(Portrait, false, BaseWidth, BaseHeight), start, port.faults);
    }

    /** `setOrientation(orientation, reverse)`: the preamble write, then, if it succeeded, the
        orientation write. The session's `width` and `height` stay as they were. */
    method SetOrientation(orientation: int, reverse: bool) returns (ok: bool)
      modifies port
      ensures width == old(width) && height == old(height)
      ensures port.written == old(port.written) + Issued(OrientationWrites(orientation, reverse, width, height), |old(port.written)|, port.faults)
      ensures ok == Accepted(port.faults, |old(port.written)|, 2)
    {
      ghost var start := |port.written|;
      ghost var plan := OrientationWrites(orientation, reverse, width, height);
      var reverseFlag := if reverse then 0x01 else 0x00;
      var orientationFlag := if orientation == Landscape then 0x02 else 0x00;
      var w, h := width, height;
      if orientation == Landscape {
        w, h := h, w;
      }

      var bytes := PackCommand(OrientationPreamble, 0, 0, 0, 0);
      bytes := AppendBytes(bytes, Zeros(10));
      assert bytes == plan[0];
      ok := port.Write(bytes);
      if !ok {
        IssuedStopsAtFault(plan, start, port.faults, 0);
        return;
      }

      bytes := PackCommand(SetOrientationCommand, 0, 0, 0, 0);
      bytes := AppendBytes(bytes, [0x64 + reverseFlag + orientationFlag] + PackUInt16(w) + PackUInt16(h) + Zeros(5));
      assert bytes == plan[1];
      ok := port.Write(bytes);
      if ok {
        IssuedAll(plan, start, port.faults);
      } else {
        IssuedStopsAtFault(plan, start, port.faults, 1);
      }
    }

    /** `clear()`: one 0x66 frame. */
    method Clear() returns (ok: bool)
      modifies port
      ensures port.written == old(port.written) + [CommandFrame(ClearCommand)]
      ensures ok == (|old(port.written)| !in port.faults)
    {
      ok := port.Write(PackCommand(ClearCommand, 0, 0, 0, 0));
    }

    /** `toBlack()`: one 0x67 frame. */
    method ToBlack() returns (ok: bool)
      modifies port
      ensures port.written == old(port.written) + [CommandFrame(ToBlackCommand)]
      ensures ok == (|old(port.written)| !in port.faults)
    {
      ok := port.Write(PackCommand(ToBlackCommand, 0, 0, 0, 0));
    }

    /** `screenOn()`: one 0x6D frame. */
    method ScreenOn() returns (ok: bool)
      modifies port
      ensures port.written == old(port.written) + [CommandFrame(ScreenOnCommand)]
      ensures ok == (|old(port.written)| !in port.faults)
    {
      ok := port.Write(PackCommand(ScreenOnCommand, 0, 0, 0, 0));
    }

    /** `screenOff()`: one 0x6C frame. */
    method ScreenOff() returns (ok: bool)
      modifies port
      ensures port.written == old(port.written) + [CommandFrame(ScreenOffCommand)]
      ensures ok == (|old(port.written)| !in port.faults)
    {
      ok := port.Write(PackCommand(ScreenOffCommand, 0, 0, 0, 0));
    }

    /** `displayBitmap(x, y, type, buffer)` once the decoder has answered: nothing is written on
        a decode error; otherwise the header frame and then one row buffer per image row, each
        write awaited, stopping at the first write that fails. */
    method DisplayBitmap(x: int, y: int, decoded: Decoded) returns (outcome: Outcome)
      modifies port
      ensures decoded.DecodeError? ==> outcome == Rejected && port.written == old(port.written)
      ensures decoded.Pixels? ==>
                var plan := BitmapWrites(x, y, decoded.image);
                port.written == old(port.written) + Issued(plan, |old(port.written)|, port.faults)
                && outcome == if Accepted(port.faults, |old(port.written)|, |plan|) then Resolved else Unsettled
    {
      if decoded.DecodeError? {
        return Rejected;
      }
      var img := decoded.image;
      ghost var start := |port.written|;
      ghost var plan := BitmapWrites(x, y, img);
      assert |plan| == img.height + 1;

      var w, h := img.width, img.height;
      var x2, y2 := x + w - 1, y + h - 1;
      var command := PackCommand(DisplayBitmapCommand, x, y, x2, y2);
      var ok := port.Write(command);
      if !ok {
        IssuedStopsAtFault(plan, start, port.faults, 0);
        return Unsettled;
      }

      var colorData := new Word[w];
      var row := 0;
      while row < h
        invariant 0 <= row <= h
        invariant port.written == old(port.written) + plan[..row + 1]
        invariant Accepted(port.faults, start, row + 1)
      {
        FillRow(colorData, img, row);
        BitmapWritesParts(x, y, img, row);
        SentOneMore(old(port.written), plan, row + 1);
        ok := port.Write(WordBytes(colorData[..]));
        if !ok {
          IssuedStopsAtFault(plan, start, port.faults, row + 1);
          return Unsettled;
        }
        row := row + 1;
      }
      assert plan[..row + 1] == plan;
      IssuedAll(plan, start, port.faults);
      return Resolved;
    }
  }
}
