/** The wire-level encoders of the display protocol: the 6-byte command frame, the
    little-endian 16-bit integer and byte-buffer concatenation (`_packCommand`,
    `_packUInt16` and `_appendBytes` of the `Display` class in src/display.js).

    The source computes with JavaScript's 32-bit bitwise operators and stores into
    `Uint8Array` cells. For an integer `a` and a positive power of two `2^k`:
      - `a >> k` is `a / 2^k` (Dafny's `/` floors for a positive divisor);
      - `a & (2^k - 1)` is `a % 2^k` (two's complement keeps the low bits);
      - `a << k | b` is `a * 2^k + b` whenever `b < 2^k` (the bit ranges are disjoint);
      - a `Uint8Array` store keeps its value modulo 256.
    The 32-bit wrap-around of `>>` only changes bits that a later mask or the byte
    store drops, so these functions agree with the source for every integer argument. */
module FrameCodec {

  /** One cell of a `Uint8Array`. */
  type Byte = b: int | 0 <= b < 256

  /** One cell of a `Uint16Array`. */
  type Word = w: int | 0 <= w < 0x1_0000

  /** Storing a number into a `Uint8Array` cell keeps it modulo 256. */
  function ToUint8(n: int): Byte
  {
    n % 256
  }

  /** A byte store keeps a value that already is a byte, and otherwise keeps the byte that
      differs from it by a multiple of 256. */
  lemma {:induction false} ByteStore(n: int)
    ensures 0 <= n < 256 ==> ToUint8(n) == n
    ensures ToUint8(n + 256) == ToUint8(n) && (n - ToUint8(n)) % 256 == 0
  {
    Split(n + 256, n / 256 + 1, n % 256, 256);
    Split(n - n % 256, n / 256, 0, 256);
  }

  /** Number of bytes in every command frame. */
  const FrameSize: nat := 6

  /** Only the low ten bits of each frame parameter reach the wire. */
  const ParamRange: nat := 1024

  /** `_packCommand(command, p1, p2, p3, p4)`: four 10-bit parameters packed back to back,
      without byte alignment, into bytes 0-4, and the opcode in byte 5. Callers that pass
      fewer parameters get 0 for the rest. */
  function PackCommand(command: int, p1: int, p2: int, p3: int, p4: int): (frame: seq<Byte>)
    ensures |frame| == FrameSize
    ensures frame[5] == command % 256
  {
    [ ToUint8(p1 / 4),                              // p1 >> 2
      ToUint8((p1 % 4) * 64 + (p2 / 16) % 64),      // (p1 & 0x03) << 6 | (p2 >> 4) & 0x3F
      ToUint8((p2 % 16) * 16 + (p3 / 64) % 16),     // (p2 & 0x0F) << 4 | (p3 >> 6) & 0x0F
      ToUint8((p3 % 64) * 4 + (p4 / 256) % 4),      // (p3 & 0x3F) << 2 | (p4 >> 8) & 0x03
      ToUint8(p4),                                  // p4 & 0xff
      ToUint8(command) ]                            // command & 0xFF
  }

  /** A frame with no parameters, as `_packCommand(command)` builds it. */
  function CommandFrame(command: int): (frame: seq<Byte>)
    ensures |frame| == FrameSize
    ensures frame[..5] == [0, 0, 0, 0, 0] && frame[5] == command % 256
  {
    PackCommand(command, 0, 0, 0, 0)
  }

  /** Bytes 0-4 of a frame read as one 40-bit big-endian number. */
  function ParamBits(frame: seq<Byte>): nat
    requires |frame| >= 5
  {
    (((frame[0] as int * 256 + frame[1]) * 256 + frame[2]) * 256 + frame[3]) * 256 + frame[4]
  }

  /** The four ten-bit parameters and the opcode that a frame carries, read back field by field. */
  datatype Fields = Fields(command: int, p1: int, p2: int, p3: int, p4: int)

  /** The device's reading of a frame: parameter 1 is bits 39-30, parameter 2 bits 29-20,
      parameter 3 bits 19-10, parameter 4 bits 9-0, and byte 5 is the opcode. */
  function UnpackCommand(frame: seq<Byte>): (f: Fields)
    requires |frame| == FrameSize
    ensures 0 <= f.p1 < ParamRange && 0 <= f.p2 < ParamRange
    ensures 0 <= f.p3 < ParamRange && 0 <= f.p4 < ParamRange
    ensures 0 <= f.command < 256
  {
    var b0, b1, b2, b3, b4 := frame[0] as int, frame[1] as int, frame[2] as int, frame[3] as int, frame[4] as int;
    Fields(frame[5], b0 * 4 + b1 / 64, (b1 % 64) * 16 + b2 / 16, (b2 % 16) * 64 + b3 / 4, (b3 % 4) * 256 + b4)
  }

  /** A number built from a high part and a low part below `m` splits back into them, for
      each power of two at which the codecs cut a number. */
  lemma {:induction false} Split(a: int, hi: int, lo: int, m: int)
    requires m == 4 || m == 16 || m == 32 || m == 64 || m == 256 || m == 1024 || m == 2048 || m == 0x1_0000
    requires a == hi * m + lo && 0 <= lo < m
    ensures a / m == hi && a % m == lo
  {
    if m == 4 {
    } else if m == 16 {
    } else if m == 32 {
    } else if m == 2048 {
    } else if m == 64 {
    } else if m == 256 {
    } else if m == 1024 {
    } else {
    }
  }

  /** The low ten bits of `a`, split after bit 2, 4, 6 or 8 as the frame layout splits them. */
  lemma {:induction false} TenBitsAfter2(a: int)
    ensures (a / 4) % 256 * 4 + a % 4 == a % 1024
  {
    var x := a / 4;
    Split(a, x / 256, (x % 256) * 4 + a % 4, 1024);
  }

  lemma {:induction false} TenBitsAfter4(a: int)
    ensures (a / 16) % 64 * 16 + a % 16 == a % 1024
  {
    var x := a / 16;
    Split(a, x / 64, (x % 64) * 16 + a % 16, 1024);
  }

  lemma {:induction false} TenBitsAfter6(a: int)
    ensures (a / 64) % 16 * 64 + a % 64 == a % 1024
  {
    var x := a / 64;
    Split(a, x / 16, (x % 16) * 64 + a % 64, 1024);
  }

  lemma {:induction false} TenBitsAfter8(a: int)
    ensures (a / 256) % 4 * 256 + a % 256 == a % 1024
  {
    var x := a / 256;
    Split(a, x / 4, (x % 4) * 256 + a % 256, 1024);
  }

  /** Every frame parameter reaches the device as its low ten bits, whatever its size or sign:
      decoding a frame gives back each parameter modulo 1024 and the opcode modulo 256. */
  lemma {:induction false} UnpackPackCommand(command: int, p1: int, p2: int, p3: int, p4: int)
    ensures UnpackCommand(PackCommand(command, p1, p2, p3, p4))
         == Fields(command % 256, p1 % 1024, p2 % 1024, p3 % 1024, p4 % 1024)
  {
    // the values bytes 1-3 are built from, before the byte store
    var v1 := (p1 % 4) * 64 + (p2 / 16) % 64;
    var v2 := (p2 % 16) * 16 + (p3 / 64) % 16;
    var v3 := (p3 % 64) * 4 + (p4 / 256) % 4;
    Split(v1, 0, v1, 256);
    Split(v2, 0, v2, 256);
    Split(v3, 0, v3, 256);
    Split(v1, p1 % 4, (p2 / 16) % 64, 64);
    Split(v2, p2 % 16, (p3 / 64) % 16, 16);
    Split(v3, p3 % 64, (p4 / 256) % 4, 4);
    TenBitsAfter2(p1);
    TenBitsAfter4(p2);
    TenBitsAfter6(p3);
    TenBitsAfter8(p4);
  }

  /** The frame that re-packing the fields read from `frame` builds. */
  function Repacked(frame: seq<Byte>): (again: seq<Byte>)
    requires |frame| == FrameSize
    ensures |again| == FrameSize
  {
    var f := UnpackCommand(frame);
    PackCommand(f.command, f.p1, f.p2, f.p3, f.p4)
  }

  /** Re-packing gives back byte 0, the high eight bits of parameter 1. */
  lemma {:induction false} RepackByte0(frame: seq<Byte>)
    requires |frame| == FrameSize
    ensures Repacked(frame)[0] == frame[0]
  {
    var b0, b1 := frame[0] as int, frame[1] as int;
    Split(b0 * 4 + b1 / 64, b0, b1 / 64, 4);
    Split(b0, 0, b0, 256);
  }

  /** Re-packing gives back byte 1: the low two bits of parameter 1 and the high six of parameter 2. */
  lemma {:induction false} RepackByte1(frame: seq<Byte>)
    requires |frame| == FrameSize
    ensures Repacked(frame)[1] == frame[1]
  {
    var b0, b1, b2 := frame[0] as int, frame[1] as int, frame[2] as int;
    Split(b0 * 4 + b1 / 64, b0, b1 / 64, 4);
    Split((b1 % 64) * 16 + b2 / 16, b1 % 64, b2 / 16, 16);
    Split(b1 % 64, 0, b1 % 64, 64);
    Split(b1, 0, b1, 256);
  }

  /** Re-packing gives back byte 2: the low four bits of parameter 2 and the high four of parameter 3. */
  lemma {:induction false} RepackByte2(frame: seq<Byte>)
    requires |frame| == FrameSize
    ensures Repacked(frame)[2] == frame[2]
  {
    var b1, b2, b3 := frame[1] as int, frame[2] as int, frame[3] as int;
    Split((b1 % 64) * 16 + b2 / 16, b1 % 64, b2 / 16, 16);
    Split((b2 % 16) * 64 + b3 / 4, b2 % 16, b3 / 4, 64);
    Split(b2 % 16, 0, b2 % 16, 16);
    Split(b2, 0, b2, 256);
  }

  /** Re-packing gives back byte 3: the low six bits of parameter 3 and the high two of parameter 4. */
  lemma {:induction false} RepackByte3(frame: seq<Byte>)
    requires |frame| == FrameSize
    ensures Repacked(frame)[3] == frame[3]
  {
    var b2, b3, b4 := frame[2] as int, frame[3] as int, frame[4] as int;
    Split((b2 % 16) * 64 + b3 / 4, b2 % 16, b3 / 4, 64);
    Split((b3 % 4) * 256 + b4, b3 % 4, b4, 256);
    Split(b3 % 4, 0, b3 % 4, 4);
    Split(b3, 0, b3, 256);
  }

  /** Re-packing gives back byte 4, the low eight bits of parameter 4. */
  lemma {:induction false} RepackByte4(frame: seq<Byte>)
    requires |frame| == FrameSize
    ensures Repacked(frame)[4] == frame[4]
  {
    var b3, b4 := frame[3] as int, frame[4] as int;
    Split((b3 % 4) * 256 + b4, b3 % 4, b4, 256);
  }

  /** Re-packing gives back byte 5, the opcode. */
  lemma {:induction false} RepackByte5(frame: seq<Byte>)
    requires |frame| == FrameSize
    ensures Repacked(frame)[5] == frame[5]
  {
    Split(frame[5], 0, frame[5], 256);
  }

  /** The reverse direction: re-packing the fields read from any frame rebuilds that frame. */
  lemma {:induction false} PackUnpackCommand(frame: seq<Byte>)
    requires |frame| == FrameSize
    ensures var f := UnpackCommand(frame);
            PackCommand(f.command, f.p1, f.p2, f.p3, f.p4) == frame
  {
    RepackByte0(frame);
    RepackByte1(frame);
    RepackByte2(frame);
    RepackByte3(frame);
    RepackByte4(frame);
    RepackByte5(frame);
    var again := Repacked(frame);
    assert forall i :: 0 <= i < FrameSize ==> again[i] == frame[i];
  }

  /** Bytes 0-4 of any frame are its four decoded parameters laid end to end, ten bits each. */
  lemma {:induction false} ParamBitsAreFields(frame: seq<Byte>)
    requires |frame| == FrameSize
    ensures var f := UnpackCommand(frame);
            ParamBits(frame) == f.p1 * 0x4000_0000 + f.p2 * 0x10_0000 + f.p3 * 0x400 + f.p4
  {
    var b0, b1, b2, b3, b4 := frame[0] as int, frame[1] as int, frame[2] as int, frame[3] as int, frame[4] as int;
    assert b1 == (b1 / 64) * 64 + b1 % 64;
    assert b2 == (b2 / 16) * 16 + b2 % 16;
    assert b3 == (b3 / 4) * 4 + b3 % 4;
    calc {
      ParamBits(frame);
      (((b0 * 256 + b1) * 256 + b2) * 256 + b3) * 256 + b4;
      (b0 * 4 + b1 / 64) * 0x4000_0000 + ((b1 % 64) * 16 + b2 / 16) * 0x10_0000
        + ((b2 % 16) * 64 + b3 / 4) * 0x400 + ((b3 % 4) * 256 + b4);
    }
  }

  /** Frame round trip: for opcodes in [0, 255] and parameters in [0, 1023], reading a frame
      recovers exactly what was packed, and bytes 0-4 form the 40-bit big-endian number
      `p1 * 2^30 + p2 * 2^20 + p3 * 2^10 + p4`. */
  lemma {:induction false} PackCommandRoundTrip(command: int, p1: int, p2: int, p3: int, p4: int)
    requires 0 <= command < 256
    requires 0 <= p1 < ParamRange && 0 <= p2 < ParamRange
    requires 0 <= p3 < ParamRange && 0 <= p4 < ParamRange
    ensures UnpackCommand(PackCommand(command, p1, p2, p3, p4)) == Fields(command, p1, p2, p3, p4)
    ensures ParamBits(PackCommand(command, p1, p2, p3, p4))
         == p1 * 0x4000_0000 + p2 * 0x10_0000 + p3 * 0x400 + p4
  {
    assert command % 256 == command;
    assert p1 % 1024 == p1 && p2 % 1024 == p2 && p3 % 1024 == p3 && p4 % 1024 == p4;
    var frame := PackCommand(command, p1, p2, p3, p4);
    UnpackPackCommand(command, p1, p2, p3, p4);
    ParamBitsAreFields(frame);
  }

  /** `_packUInt16(n)`: the low 16 bits of `n`, least significant byte first. */
  function PackUInt16(n: int): (bytes: seq<Byte>)
    ensures |bytes| == 2
    ensures bytes[0] as int + 256 * (bytes[1] as int) == n % 0x1_0000
  {
    var x := n / 256;
    Split(n, x / 256, (x % 256) * 256 + n % 256, 0x1_0000);
    [ToUint8(n), ToUint8(x % 256)]   // [n & 0xff, (n >> 8) & 0xff]
  }

  /** Two bytes read as a little-endian unsigned 16-bit number. */
  function ReadUInt16(bytes: seq<Byte>): (n: Word)
    requires |bytes| == 2
  {
    bytes[0] as int + 256 * (bytes[1] as int)
  }

  /** Little-endian round trip in both directions: reading back a packed number gives its low
      16 bits, which is the number itself when it fits, and packing the value of any two bytes
      gives those bytes. */
  lemma {:induction false} UInt16RoundTrip(n: int, bytes: seq<Byte>)
    requires |bytes| == 2
    ensures ReadUInt16(PackUInt16(n)) == n % 0x1_0000
    ensures 0 <= n < 0x1_0000 ==> ReadUInt16(PackUInt16(n)) == n
    ensures PackUInt16(ReadUInt16(bytes)) == bytes
  {
    var x := n / 256;
    Split(n, x / 256, (x % 256) * 256 + n % 256, 0x1_0000);
    if 0 <= n < 0x1_0000 {
      Split(n, 0, n, 0x1_0000);
    }
    Split(bytes[0] as int + 256 * (bytes[1] as int), bytes[1], bytes[0], 256);
    Split(bytes[1], 0, bytes[1], 256);
  }

  /** `_appendBytes(buffer, ...newBytes)`: a new buffer holding `buffer` followed by
      `newBytes`, each stored into a `Uint8Array` cell; `buffer` itself is a value and is left as it was. */
  function AppendBytes(buffer: seq<Byte>, newBytes: seq<int>): (joined: seq<Byte>)
    ensures |joined| == |buffer| + |newBytes|
    ensures joined[..|buffer|] == buffer
    ensures forall i :: 0 <= i < |newBytes| ==> joined[|buffer| + i] == newBytes[i] % 256
  {
    buffer + seq(|newBytes|, i requires 0 <= i < |newBytes| => ToUint8(newBytes[i]))
  }

  /** When every appended value already is a byte, the suffix is exactly those values. */
  lemma {:induction false} AppendBytesSuffix(buffer: seq<Byte>, newBytes: seq<Byte>)
    ensures AppendBytes(buffer, newBytes) == buffer + newBytes
  {
    var joined := AppendBytes(buffer, newBytes);
    assert forall i :: 0 <= i < |joined| ==> joined[i] == (buffer + newBytes)[i] by {
      forall i | 0 <= i < |joined| ensures joined[i] == (buffer + newBytes)[i] {
        if i >= |buffer| {
          assert joined[|buffer| + (i - |buffer|)] == newBytes[i - |buffer|] % 256;
        } else {
          assert joined[..|buffer|][i] == buffer[i];
        }
      }
    }
  }

  /** `n` zero bytes, as the source spells out in its calls to `_appendBytes`. */
  function Zeros(n: nat): (z: seq<Byte>)
    ensures |z| == n && forall i :: 0 <= i < n ==> z[i] == 0
  {
    seq(n, _ => 0)
  }
}
