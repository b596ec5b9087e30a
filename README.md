# FaceID display firmware, modelled in Dafny

The firmware runs on an STM32F429 Discovery board. It reads text messages from a
serial link into a 64-character buffer and shows each message on the LCD,
wrapped at 30 characters per line. It lights an LED when the message is exactly
`Hello`. When the user button is pressed it clears the screen and the buffer and
waits for the next message.

The model follows the firmware's one source file, `FaceID_STM32_CODE.cpp`:

- `cstrings.dfy` (module `CStrings`): NUL-terminated strings as `strlen`,
  `strcmp` and `strncpy` see them. The message is the C string in the buffer:
  everything before the first NUL. NUL bytes received over the serial link are
  allowed and cut the message short, as they do in the firmware.
- `text_wrapper.dfy` (module `TextWrapper`): cutting a message into pieces of at
  most `n` characters (`Chunks`), and the facts the chunking loop relies on.
- `display.dfy` (module `Display`): the LCD as a list of drawing operations
  (`Clear`, `DrawAt(line, text)`), the screens the firmware draws, and
  `displayWrappedText` as a method with its `for` loop, its zeroed 31-character
  buffer and its `strncpy`.
- `line_assembler.dfy` (module `LineAssembler`): the completion rule of the
  `WAITING_FOR_DATA` state on the bytes appended since the last reset. It gives
  the buffer image, the message that a completion leaves, and which prefix of a
  byte stream completes a message.
- `session.dfy` (module `Session`): class `Firmware` with the global
  `msgBuffer` (a 64-element `array<char>`), `bufIndex`, the state, the LED,
  the serial receive queue (`rx`) and a log of LCD operations (`lcd`).
  `Step(button)` is one iteration of `main`'s `while (true)`. It dispatches to
  one method per `switch` case. A ghost field `received` holds the bytes
  appended since the last reset. `Valid()` ties it to the buffer:
  - while waiting, the buffer is `received` followed by NULs;
  - once complete, the buffer is `received` with its trailing terminator, if
    any, blanked.
- `scenarios.dfy` (module `Scenarios`): sessions driven through `Step`. These
  are `"Hello\r\n"` and `"World\n"` after start-up, and the waiting loop over a
  queued stream. `ResetTwice` is different: it calls the clearing case
  (`ClearSession`) twice directly, the second time from `WAITING_FOR_DATA`,
  which the loop itself never clears from.

Consequences that the proofs establish:

- `bufIndex` stays in `[0, 63]`, so every buffer write is in bounds.
- In the waiting state `bufIndex` is at most 62, because completion fires as
  soon as it reaches 63. The "append only if there is room" guard therefore
  always holds there, and no byte read while waiting is dropped.
- A completed message contains no `'\n'` or `'\r'`. At most one terminator is
  blanked: the one that completed the message. A message completed by a full
  buffer without a terminator loses nothing.

Behaviour of the code that the model keeps:

- While waiting, each loop iteration reads at most one byte.
- `DISPLAYING_DATA` redraws the message and sets the LED on every iteration.
- The assembler never drops a byte. Bytes after a full buffer stay in the
  serial queue until the clearing state discards them.
- The state changes before the 200 ms debounce sleep.

## Model

| member | source | states |
|---|---|---|
| `CStrings.CString` | FaceID_STM32_CODE.cpp:39 | The C string of a buffer is a prefix of it with no NUL, and is followed by a NUL unless it is the whole buffer (what `strlen` measures and `strcmp` compares, also at :112). |
| `CStrings.CStringSuffix` | FaceID_STM32_CODE.cpp:47 | For `i` within the string, the C string at `message + i` is the tail of the C string at `message` from `i`. |
| `CStrings.StrNCpy` | FaceID_STM32_CODE.cpp:47 | `strncpy(buffer, src, n)` stores exactly `n` characters in the destination. |
| `CStrings.StrNCpyCopies` | FaceID_STM32_CODE.cpp:44-47 | With a NUL after the `n` stored characters, their C string is the first `min(n, strlen(src))` characters of `src`'s C string. |
| `CStrings.StrNCpyPads` | FaceID_STM32_CODE.cpp:47 | Every stored character past the end of the source's C string is NUL: `strncpy` pads the rest of the `n` characters. |
| `CStrings.CopiesStep` | FaceID_STM32_CODE.cpp:47 | The inductive step of `StrNCpyCopies`: when `src[0]` is not NUL and the property holds for `src[1..]` and `n - 1`, it holds for `src` and `n`. |
| `CStrings.CStringCons` | FaceID_STM32_CODE.cpp:39 | A character that is not NUL, put in front of a string, is the first character of its C string, and the rest is the old C string. |
| `CStrings.TakeOfDrop` | FaceID_STM32_CODE.cpp:47 | The first `w` characters from position `i` are the slice of the string from `i`, cut at the end of the string. |
| `CStrings.Zeros` | FaceID_STM32_CODE.cpp:133 | `memset(…, 0, n)` leaves `n` characters, every one NUL (also the zeroed chunk buffer at :45). |
| `TextWrapper.Chunks` | FaceID_STM32_CODE.cpp:43-49 | The pieces, concatenated in order, give back the message, and every piece has between 1 and `n` characters. |
| `TextWrapper.ChunksCount` | FaceID_STM32_CODE.cpp:43 | A message of length `k` has `ceil(k / n)` pieces, so the empty message has none. |
| `TextWrapper.ChunkAt` | FaceID_STM32_CODE.cpp:43-47 | Piece `k` starts inside the message at `k * n` and is the slice of at most `n` characters from there. |
| `TextWrapper.PieceAt` | FaceID_STM32_CODE.cpp:43-47 | A loop step at `i = k * n < len` finds piece `k`, equal to the slice at `i`. It is the last piece exactly when `i + n >= len`, which ends the loop. |
| `Display.BodyLines` | FaceID_STM32_CODE.cpp:40-49 | One draw per piece, piece `k` on line `line + k`. |
| `Display.WrappedScreen` | FaceID_STM32_CODE.cpp:32-50 | Definition: the header followed by one body line per 30-character piece, starting at LINE(3). |
| `Display.WrappedScreenShape` | FaceID_STM32_CODE.cpp:32-50 | A message screen is a clear plus the "Connected!" header on LINE(1), followed by `ceil(len / 30)` body lines. Body line `k` is on LINE(3 + k) and shows characters `30k` to `30k + 29`. The empty message draws the header only. |
| `Display.HelloScreen` | FaceID_STM32_CODE.cpp:32-50 | The screen for `"Hello"` is a clear, "Connected!" on LINE(1) and `"Hello"` on LINE(3). |
| `Display.BodyLinesSnoc` | FaceID_STM32_CODE.cpp:49 | Drawing one more piece adds one line below the others (`LINE(line++)`). |
| `Display.ScreenStep` | FaceID_STM32_CODE.cpp:49 | After the first `n` pieces, drawing piece `n` on the next line gives the screen of the first `n + 1` pieces. |
| `Display.CopiedSlice` | FaceID_STM32_CODE.cpp:44-47 | Copying from `message + i` into the zeroed 31-character buffer yields the slice of the message that starts at `i` and is at most 30 characters long. |
| `Display.DrawStep` | FaceID_STM32_CODE.cpp:43-49 | One loop step at `i = 30n`, inside the message, copies exactly piece `n`. Drawing it on LINE(3 + n) extends the screen by that piece. It is the last piece exactly when `i + 30` reaches the end of the message. |
| `Display.DisplayWrappedText` | FaceID_STM32_CODE.cpp:32-54 | Its `for` loop over a NUL-terminated array draws exactly the message screen of the array's C string. |
| `LineAssembler.CompletesWith` | FaceID_STM32_CODE.cpp:91 | Definition: the completion test after appending a byte, true when the byte is `'\n'`/`'\r'` or the cursor has reached 63. |
| `LineAssembler.Complete` | FaceID_STM32_CODE.cpp:86-91 | Definition: the bytes of a completed message, that is, collecting bytes followed by one byte that passes the completion test. |
| `LineAssembler.Strip` | FaceID_STM32_CODE.cpp:94-97 | Definition: the trailing terminator, if there is one, is removed, as the blanking at :96 does. |
| `LineAssembler.Image` | FaceID_STM32_CODE.cpp:14 | A buffer holding `r` has 64 characters: `r` first, NUL everywhere after it. |
| `LineAssembler.FrameMessage` | FaceID_STM32_CODE.cpp:91-97 | The message left after completion is the C string of the received bytes with its trailing terminator, if any, removed. It has no terminator and at most 63 characters. |
| `LineAssembler.TerminatedMessage` | FaceID_STM32_CODE.cpp:91-97 | With no NUL bytes, a message completed by `'\n'` or `'\r'` is exactly the bytes before the terminator. That is one character fewer than was received. |
| `LineAssembler.OverflowMessage` | FaceID_STM32_CODE.cpp:86-95 | A message completed without a terminator has 63 bytes, none of them a terminator. The buffer is those bytes and a NUL at index 63. With no NUL bytes, the message is all 63 of them. |
| `LineAssembler.Scan` | FaceID_STM32_CODE.cpp:82-101 | Definition: feeding the stream one byte per tick from a collecting position gives the length at which the first completion happens, or none. |
| `LineAssembler.FrameLength` | FaceID_STM32_CODE.cpp:82-101 | Definition: `Scan` from a reset assembler. |
| `LineAssembler.NotCompleteAfter` | FaceID_STM32_CODE.cpp:91-100 | Once a prefix of the stream completes a message, no longer prefix does. |
| `LineAssembler.ScanSpec` | FaceID_STM32_CODE.cpp:84-101 | Scanning from a collecting position `k` stops after `n` bytes exactly when the first `n` bytes form a completed message, for `k < n`. |
| `LineAssembler.ScanAdvance` | FaceID_STM32_CODE.cpp:86-101 | After one more byte, either the bytes so far form a completed message and the scan stops there, or they are still collecting and the scan goes on from the next position. |
| `LineAssembler.FrameLengthSpec` | FaceID_STM32_CODE.cpp:84-101 | The assembler completes after exactly `n` bytes of a stream fed from a reset if and only if those `n` bytes form a completed message. |
| `LineAssembler.ScanCollecting` | FaceID_STM32_CODE.cpp:86-91 | Every prefix of a collecting sequence is collecting, and scanning it from any position finds no completion. |
| `LineAssembler.NoFrameWhileCollecting` | FaceID_STM32_CODE.cpp:86-91 | Fewer than 63 bytes with no terminator never complete a message. |
| `LineAssembler.OverflowFrame` | FaceID_STM32_CODE.cpp:86-92 | Any stream of at least 63 bytes with no terminator among the first 63 completes after exactly 63 bytes. The message is those 63 bytes when none is NUL. |
| `LineAssembler.HelloCrLf` | FaceID_STM32_CODE.cpp:91-97 | `"Hello\r\n"` completes on the `'\r'`, after 6 bytes, with the message `"Hello"`. |
| `LineAssembler.WorldLf` | FaceID_STM32_CODE.cpp:91-97 | `"World\n"` completes after 6 bytes with the message `"World"`. |
| `LineAssembler.EmptyLine` | FaceID_STM32_CODE.cpp:91-97 | A terminator as the first byte completes at once, with the empty message. |
| `Session.ImageTerminated` | FaceID_STM32_CODE.cpp:14 | A buffer holding fewer than 64 received characters keeps a NUL at index 63, so `strlen` on the buffer (at :39 via :109) stops inside it. |
| `Session.Firmware.Valid` | FaceID_STM32_CODE.cpp:14-15 | Definition: the buffer invariant. The cursor is in `[0, 63]` and counts the received bytes. While waiting, the buffer is those bytes followed by NULs and the LED is off. Otherwise the bytes are a completed message and the buffer holds them with their trailing terminator, if any, stripped. |
| `Session.Firmware.Message` | FaceID_STM32_CODE.cpp:112 | Definition: the C string in the buffer, which `strlen` (at :39 via :109) and `strcmp` read. |
| `Session.Firmware.constructor` | FaceID_STM32_CODE.cpp:63-76 | Start-up gives a zeroed buffer, `bufIndex == 0`, the start-up screen, the LED off and `WAITING_FOR_DATA`. |
| `Session.Firmware.Receive` | FaceID_STM32_CODE.cpp:10 | The UART queues received bytes in order. |
| `Session.Firmware.DrainSerial` | FaceID_STM32_CODE.cpp:140-143 | The drain loop empties the receive queue. |
| `Session.Firmware.ReadByte` | FaceID_STM32_CODE.cpp:80-105 | With nothing readable, nothing changes. Otherwise one byte is taken from the queue and appended: the cursor advances by one and the guard at :86 held. The state becomes `DISPLAYING_DATA` exactly when the byte is `'\n'`/`'\r'` or the cursor reaches 63, which is exactly when the received bytes form a completed message. The message is then `FrameMessage` of those bytes. |
| `Session.Firmware.ShowMessage` | FaceID_STM32_CODE.cpp:107-125 | Each tick appends the message screen to the LCD and sets the LED to whether the message equals `"Hello"`. It stays while the button reads 1 and moves to `CLEARING_DISPLAY` when it reads 0. Its frame lets only the LCD, the LED and the state change, so the buffer, the cursor and the queue stay as they were. |
| `Session.Firmware.ClearSession` | FaceID_STM32_CODE.cpp:127-145 | The idle screen is drawn. Afterwards every buffer element is NUL, `bufIndex == 0`, the LED is off, the state is `WAITING_FOR_DATA` and the queue is empty. |
| `Session.Firmware.Step` | FaceID_STM32_CODE.cpp:78-150 | One loop iteration does what the current state's case does, as the three methods above state, and keeps the buffer invariant `Valid()`. |
| `Scenarios.WaitForMessage` | FaceID_STM32_CODE.cpp:78-105 | Ticking while waiting over a queued stream, from an empty assembler, consumes exactly the first `FrameLength` bytes and ends displaying their message. When the stream completes no message, it consumes all of it and keeps waiting. |
| `Scenarios.DisplayAndAcknowledge` | FaceID_STM32_CODE.cpp:107-145 | A released tick draws the message screen and sets the LED from the message. A pressed tick and the clearing tick then leave the buffer zeroed, the LED off, the queue empty and the state waiting. |
| `Scenarios.HelloSession` | FaceID_STM32_CODE.cpp:63-145 | After start-up, `"Hello\r\n"` draws the clear, "Connected!" on LINE(1) and `"Hello"` on LINE(3), with the LED on. After the press the LED is off, the buffer is zero, the trailing `'\n'` has been discarded, and the firmware waits again with `bufIndex == 0`. |
| `Scenarios.WorldSession` | FaceID_STM32_CODE.cpp:107-116 | After start-up, `"World\n"` draws the screen for `"World"` with the LED off. |
| `Scenarios.ResetTwice` | FaceID_STM32_CODE.cpp:127-145 | Applying the clearing case twice directly, the second time from `WAITING_FOR_DATA` (not a state the loop clears from), leaves the same buffer, cursor, state, LED and queue as applying it once: the reset values. |

## Left out

- LCD driver: fonts, text and back colours, the clear colour and the centring
  mode are not modelled. Draws are recorded only as (line, text) operations.
- The `ThisThread::sleep_for` delays (the 2500 ms dwell after each message
  screen, the 200 ms debounce and the 50 ms loop delay) are left out, because
  timing is outside the model.
- The `printf` echo of each message to the console is left out. It is output
  only and has no effect on the state.
- `BufferedSerial` hardware, its pins and its baud rate are left out. The
  receive side is the queue `rx`, filled by `Receive`.
- Bytes that arrive while the drain loop runs are not modelled. The drain
  empties the queue as it stands.
- A `serial.read` that returns something other than 1 while the link is
  readable is not modelled. The model always yields one byte.
- The `DigitalOut` and `DigitalIn` objects are a boolean field and a boolean
  parameter of `Step`.
- The endless `while (true)` in `main` is one `Step` per iteration. Sessions
  are finite sequences of steps.
- `Scenarios.WaitForMessage` starts from an empty assembler, as after start-up
  or a reset. It does not cover a stream picked up part-way through a message.
- Serial bytes are 8-bit C `char`s, but the model reads Dafny `char`s, which
  also include values above 255. The input domain is therefore wider than
  the link can deliver; every property is stated for all of it, so it holds
  for the byte subset too.
