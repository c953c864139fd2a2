# Turing screen display protocol, in Dafny

This project models the protocol layer of `turing-screen-api-node`, a Node.js driver for a
small serial-attached 320 x 480 display. The `Display` class in `src/display.js` turns display
operations into the exact byte sequences written to the serial port:

- **Frame codec** (`FrameCodec.dfy`). `_packCommand` packs an opcode and four 10-bit parameters
  into a 6-byte frame. The parameters sit back to back in bytes 0-4 and the opcode is byte 5.
  `_packUInt16` writes a little-endian 16-bit number. `_appendBytes` concatenates byte buffers.
- **Colour codec** (`ColorCodec.dfy`). `_packColor` scales 8-bit red, green and blue to 5, 6
  and 5 bits and lays them out as RGB565.
- **Transport** (`Transport.dfy`). The serial port is a `SerialPort` object. It records every
  write issued and rejects the calls whose positions are in its fault set. `Issued` says which
  writes reach the port when a sequence of writes is sent one awaited call after another.
- **Display session** (`DisplaySession.dfy`). The `Display` class covers:
  - the constructor's reset-then-portrait sequence;
  - `setOrientation`'s two 16-byte writes;
  - the single-frame commands `clear`, `toBlack`, `screenOn` and `screenOff`;
  - `displayBitmap`'s header frame followed by one row buffer per image row.

  Each method is proved against a specification function of the writes it issues. The
  functions are `StartupWrites`, `OrientationWrites` and `BitmapWrites`, and lemmas state the
  byte layout of each.

JavaScript's bitwise operators become arithmetic on unbounded integers. `a >> k` is
`a / 2^k`, `a & (2^k - 1)` is `a % 2^k`, and `|` of disjoint bit ranges is `+`. A `Uint8Array`
store is `% 256`. The 32-bit wrap-around of `>>` only reaches bits that a later mask or the byte
store drops, so the frame and integer encoders agree with the source for every integer argument,
negative ones included.

Places where the code does not do what its own names or callers suggest; the model follows the code:

- The constructor sends opcode 0xFF, not the declared `Command.Reset` (0x65), which nothing sends
  (src/display.js:11, 31).
- There is no `init` method, although src/command/display-image.js:47 calls one. The constructor
  itself writes the reset frame and then calls `setOrientation(Portrait)` (src/display.js:31-33).
- `setOrientation` never assigns `width` or `height`. It swaps local copies, so a session keeps
  320 x 480 for its whole life (src/display.js:29-30, 39-42). The constructor promises 320 x 480, `SetOrientation`
  promises both fields unchanged, and the other methods may change only the port.
- A write failure inside `displayBitmap` happens in the decoder's callback. It rejects that
  callback's own promise, so the promise `displayBitmap` returns never settles. `Outcome.Unsettled`
  models this. A decode error rejects the returned promise, and nothing is written.
- Failures are not recorded in any session state, so no session state blocks later operations.
  The rejections that no caller handles are listed under "## Left out".

## Model

| member | source | states |
|---|---|---|
| FrameCodec.ByteStore | src/display.js:106-115 | a `Uint8Array` store keeps a value that is already a byte, and otherwise keeps the byte that differs from it by a multiple of 256 (adding 256 changes nothing) |
| FrameCodec.PackCommand | src/display.js:106-115 | a frame is always exactly 6 bytes and byte 5 is the opcode modulo 256 |
| FrameCodec.CommandFrame | src/display.js:106-115 | with the default parameters, bytes 0-4 are zero and byte 5 is the opcode |
| FrameCodec.UnpackCommand | src/display.js:108-113 | the device's reading of a frame yields four parameters in [0, 1023] and an opcode in [0, 255] |
| FrameCodec.UnpackPackCommand | src/display.js:108-113 | for all integers, decoding a packed frame gives each parameter modulo 1024 and the opcode modulo 256: only the low ten bits reach the wire |
| FrameCodec.PackUnpackCommand | src/display.js:108-113 | re-packing the fields read from any 6-byte frame rebuilds that frame (packing is onto) |
| FrameCodec.ParamBitsAreFields | src/display.js:108-112 | bytes 0-4 read as a 40-bit big-endian number are the four parameters laid end to end, ten bits each |
| FrameCodec.PackCommandRoundTrip | src/display.js:106-115 | for opcodes in [0, 255] and parameters in [0, 1023], unpacking recovers every value exactly and bytes 0-4 equal p1·2^30 + p2·2^20 + p3·2^10 + p4 |
| FrameCodec.PackUInt16 | src/display.js:117-122 | two bytes, least significant first, whose little-endian value is n modulo 65536 |
| FrameCodec.UInt16RoundTrip | src/display.js:117-122 | little-endian round trip both ways: reading back the two packed bytes of any integer gives it modulo 65536 (so n itself for n in [0, 65535]), and packing the value of any two bytes gives those bytes |
| FrameCodec.AppendBytes | src/display.js:144-149 | length is the sum of both lengths, the prefix is the original buffer, and entry i of the suffix is new value i stored as a byte |
| FrameCodec.AppendBytesSuffix | src/display.js:144-149 | when the appended values are bytes, the result is exactly the buffer followed by them |
| ColorCodec.ScaleIsFloor | src/display.js:125-127 | `Scale5` and `Scale6` give the largest field value f with f·255 ≤ channel·31 (resp. ·63): the fraction channel/255 of the field's top, rounded down |
| ColorCodec.ScaleRange | src/display.js:125-127 | a scaled channel reaches the top of its field exactly for 255 and is 0 exactly below one field step (9 for red and blue, 5 for green) |
| ColorCodec.ScaleMonotonic | src/display.js:125-127 | scaling keeps the order of channel values |
| ColorCodec.Pack565 | src/display.js:128 | bits 15-11 of the word read back as red, bits 10-5 as green and bits 4-0 as blue |
| ColorCodec.Rgb565RoundTrip | src/display.js:128 | the red-green-blue shift-and-or layout is a bijection between (5, 6, 5)-bit field triples and 16-bit words |
| ColorCodec.PackColor | src/display.js:124-129 | bits 15-11, 10-5 and 4-0 of the packed colour are the scaled red, green and blue channels |
| ColorCodec.PackColorFields | src/display.js:124-129 | bits 15-11, 10-5 and 4-0 of the packed colour are floor(r·31/255), floor(g·63/255) and floor(b·31/255) |
| ColorCodec.BlackAndWhite | src/display.js:124-129 | black packs to 0x0000 and white to 0xFFFF |
| ColorCodec.Primaries | src/display.js:124-129 | full red, green and blue pack to 0xF800, 0x07E0 and 0x001F |
| Transport.SerialPort.constructor | src/display.js:22-28 | a freshly opened port has issued no writes |
| Transport.SerialPort.Write | src/display.js:131-142 | a write call is recorded in order and resolves unless its position is a fault |
| Transport.Issued | src/display.js:44-56 | awaited writes issue a prefix of the plan, never empty for a non-empty plan |
| Transport.IssuedAll | src/display.js:87-99 | with no rejected write, the whole plan is issued |
| Transport.IssuedStopsAtFault | src/display.js:87-99 | when write k is the first rejected, exactly writes 0..k are issued and no later write is attempted |
| Transport.IssuedAppend | src/display.js:31-33 | sending one plan and then, on success, a second, issues what sending the two as one plan issues |
| DisplaySession.OrientationFlags | src/display.js:37-50 | the orientation flag byte is 0x64 with the reverse bit in bit 0 and the landscape bit in bit 1, each if and only if |
| DisplaySession.OrientedSize | src/display.js:39-42 | the announced size holds the session's two dimensions, in their own order for any orientation other than landscape |
| DisplaySession.OrientationWrites | src/display.js:44-56 | two writes, each 16 bytes long |
| DisplaySession.OrientationWritesLayout | src/display.js:36-57 | two 16-byte writes: the 0x7A frame and ten zeros, then the 0x79 frame, the flag byte, width and height little-endian (swapped for landscape) and five zeros |
| DisplaySession.PanelOrientationSize | src/display.js:29-42 | on the 320 x 480 session, landscape announces 480 x 320 and any other orientation 320 x 480 |
| DisplaySession.StartupWrites | src/display.js:31-33 | three writes: a 6-byte frame, then two 16-byte buffers |
| DisplaySession.StartupWritesLayout | src/display.js:29-33 | the constructor's plan is the 0xFF frame, then the portrait orientation writes announcing 320 x 480 with flag byte 0x64 |
| DisplaySession.WordBytes | src/display.js:98 | the byte view of a row buffer has two bytes per word |
| DisplaySession.WordBytesAt | src/display.js:98 | bytes 2i and 2i+1 of the row buffer are word i, little-endian |
| DisplaySession.RowColors | src/display.js:92-96 | a row has one colour word per image column |
| DisplaySession.BitmapWrites | src/display.js:82-99 | one write per image row after a 6-byte header frame whose opcode byte is 0xC5 |
| DisplaySession.BitmapHeaderFields | src/display.js:82-87 | the bitmap stream has h + 1 writes and its first is the 0xC5 frame that the device reads as (x, y, x+w-1, y+h-1), each modulo 1024 |
| DisplaySession.BitmapRowEntry | src/display.js:89-99 | write r + 1 of the bitmap stream has 2w bytes, and entry c of it is the packed colour of pixel (c, r), low byte first |
| DisplaySession.BitmapStopsAtFailedRow | src/display.js:87-99 | when the write of row k fails, the header and rows 0..k are on the port and no later row is written |
| DisplaySession.RedSquare | src/display.js:82-99 | a 4 x 4 red image at (10, 20) gives the header (10, 20, 13, 23) and four rows of four 0xF800 words |
| DisplaySession.FillRow | src/display.js:89-97 | after the fill with 0xFFFF and the column loop, the buffer holds exactly the row's packed colours, so no filler survives |
| DisplaySession.Display.constructor | src/display.js:21-34 | the session is 320 x 480 and the port receives the issued prefix of reset-then-portrait |
| DisplaySession.Display.SetOrientation | src/display.js:36-57 | the port receives the issued prefix of the two orientation writes, success means both were accepted, and width and height are unchanged |
| DisplaySession.Display.Clear | src/display.js:59-61 | exactly one write, the 0x66 frame |
| DisplaySession.Display.ToBlack | src/display.js:63-65 | exactly one write, the 0x67 frame |
| DisplaySession.Display.ScreenOn | src/display.js:67-69 | exactly one write, the 0x6D frame |
| DisplaySession.Display.ScreenOff | src/display.js:71-73 | exactly one write, the 0x6C frame |
| DisplaySession.Display.DisplayBitmap | src/display.js:75-104 | nothing is written on a decode error; otherwise the port receives the issued prefix of the bitmap stream, and the promise resolves only if every write was accepted |

## Left out

- Opening the serial port (`new SerialPort` with 9600 baud, 8N1) and the byte transfer itself
  are foreign I/O. The port is a parameter of the constructor, and each write either is accepted
  or is rejected as its fault set says. A rejected write is recorded as issued; how much of it
  reaches the device is not modelled.
- Image decoding (`getPixels`) is a third-party library. `DisplayBitmap` takes the decoder's
  answer: either an image of `width` x `height` pixels with byte channels, or a decode error. The
  MIME type and the raw buffer are not modelled. On a decode error the callback rejects the
  returned promise and then goes on to read `pixels.shape` of an undefined `pixels`
  (src/display.js:78-82). That TypeError rejects the callback's own promise, which no one
  handles: an unhandled rejection, listed below. No write happens before it, so the model gives
  "rejected, nothing written".
- Promises, `async`/`await` and the event loop. Each modelled operation runs to its end before
  the next starts. Within `setOrientation` and `displayBitmap` the source's `await`s give this
  order. Two operations in flight at once on one session are not modelled, because nothing in
  the source serialises them.
- DisplaySession.Display.constructor: the source awaits nothing. It issues the 0xFF write and
  chains the portrait orientation writes onto that write's promise (src/display.js:31-33), so
  `new Display(path)` returns before the 0x7A and 0x79 writes are issued. A call made right after
  construction, such as `clear()`, can reach the port before or between them. The model's
  constructor instead returns with the whole issued prefix of reset-then-portrait on the port.
- Unhandled rejections are not modelled. Three rejections reach no handler:
  - a failed write in the constructor's `.then` chain;
  - a failed write inside `displayBitmap`'s decoder callback;
  - the TypeError after a decode error, when the callback reads `pixels.shape` of an undefined
    `pixels` (src/display.js:82).

  Node 15 and later end the process on an unhandled rejection by default, so on such a runtime
  every decode error ends the process even though the returned promise was rejected cleanly. In
  the model the session simply goes on.
- ColorCodec.Scale5 and ColorCodec.Scale6 use exact integer division for the source's
  double-precision `channel / 255 * max` truncated by `<<`. For every channel value in [0, 255]
  the double-precision product truncates to the same integer. Non-integer or out-of-range
  channels cannot occur, because channels are typed as bytes.
- Frame parameters and 16-bit values are integers. Non-numeric JavaScript arguments (strings,
  `NaN`, fractions) are not modelled.
- The row buffer's byte view assumes a little-endian host. `new Uint8Array(colorData.buffer)`
  follows the host's byte order.
- `SetBrightness` (0x6E) and `Reset` (0x65) are declared as constants only: no method of the
  source sends them.
- `src/command/display-image.js` (CLI options, file reading, and a call to a non-existent
  `Display.init`), `src/command/serve.js` (port-option validation and logging) and
  `src/main.js` (command registration) are command-line plumbing and are not part of this model.
