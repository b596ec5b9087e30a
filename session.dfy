/** The firmware's control loop: the global message buffer and cursor, the
    three-state machine of `main`, the LED and the serial receive queue, with
    one iteration of `while (true)` as the method Step. */
module Session {
  import opened CStrings
  import opened LineAssembler
  import opened Display

  datatype State = WaitingForData | DisplayingData | ClearingDisplay

  /** The message that lights the LED. */
  const Trigger: string := "Hello"

  /** A buffer image always holds a NUL, the one at index 63 at the latest,
      so `strlen` stops inside the buffer. */
  lemma ImageTerminated(r: seq<char>)
    requires |r| < BufferSize
    ensures Image(r)[BufferSize - 1] == NUL && NUL in Image(r)
  {
  }

  class Firmware {
    /** `msgBuffer`, BUFFER_SIZE characters. */
    const msgBuffer: array<char>
    /** `bufIndex`, the assembler's cursor. */
    var bufIndex: int
    /** `currentState`. */
    var state: State
    /** The level written to the LED pin. */
    var led: bool
    /** The bytes the UART has received and the loop has not read yet. */
    var rx: seq<char>
    /** Everything drawn on the LCD so far, oldest first. */
    var lcd: seq<LcdOp>
    /** The bytes the assembler has appended since the last reset. */
    ghost var received: seq<char>

    ghost predicate Valid()
      reads this, msgBuffer
    {
      msgBuffer.Length == BufferSize &&
      0 <= bufIndex <= BufferSize - 1 &&
      bufIndex == |received| &&
      (state == WaitingForData ==>
        Collecting(received) && msgBuffer[..] == Image(received) && !led) &&
      (state != WaitingForData ==>
        Complete(received) && msgBuffer[..] == Image(Strip(received)))
    }

    /** The message `strcmp` and `strlen` see: the C string in the buffer. */
    function Message(): string
      reads this, msgBuffer
    {
      CString(msgBuffer[..])
    }

    /** Start-up: a zeroed buffer, the start-up screen, the LED off and the
        machine waiting for data. */
    constructor ()
      ensures Valid() && fresh(msgBuffer)
      ensures msgBuffer[..] == Zeros(BufferSize) && bufIndex == 0 && received == []
      ensures state == WaitingForData && !led && rx == [] && lcd == StartupScreen
    {
      msgBuffer := new char[BufferSize](_ => NUL);
      bufIndex := 0;
      received := [];
      state := WaitingForData;
      led := false;
      rx := [];
      lcd := StartupScreen;
    }

    /** The UART receives bytes; they wait until the loop reads them. */
    method Receive(bytes: seq<char>)
      modifies this`rx
      ensures rx == old(rx) + bytes
    {
      rx := rx + bytes;
    }

    /** `while (serial.readable()) serial.read(&c, 1);` */
    method DrainSerial()
      modifies this`rx
      ensures rx == []
    {
      while |rx| > 0
        decreases |rx|
      {
        rx := rx[1..];
      }
    }

    /** The `WAITING_FOR_DATA` case: read at most one byte and feed it to
        the assembler. */
    method ReadByte()
      requires Valid() && state == WaitingForData
      modifies this, msgBuffer
      ensures Valid()
      ensures lcd == old(lcd) && led == old(led)
      // Nothing readable: nothing happens.
      ensures old(rx) == [] ==>
        state == WaitingForData && rx == [] && received == old(received) &&
        msgBuffer[..] == old(msgBuffer[..])
      // A byte: it is appended in arrival order, never dropped, and the
      // message completes exactly on a terminator or a full buffer.
      ensures old(rx) != [] ==>
        old(bufIndex) < BufferSize - 1 &&
        rx == old(rx)[1..] &&
        received == old(received) + [old(rx)[0]] &&
        bufIndex == old(bufIndex) + 1 &&
        (state == DisplayingData <==> IsTerminator(old(rx)[0]) || bufIndex >= BufferSize - 1) &&
        (state == DisplayingData || state == WaitingForData) &&
        (state == DisplayingData <==> Complete(received)) &&
        (state == DisplayingData ==> Message() == FrameMessage(received))
    {
      if |rx| > 0 {
        var c := rx[0];
        rx := rx[1..];
        if bufIndex < BufferSize - 1 {
          msgBuffer[bufIndex] := c;
          bufIndex := bufIndex + 1;
          received := received + [c];
        }
        if c == '\n' || c == '\r' || bufIndex >= BufferSize - 1 {
          msgBuffer[bufIndex] := NUL;
          if bufIndex > 0 && (msgBuffer[bufIndex - 1] == '\n' || msgBuffer[bufIndex - 1] == '\r') {
            msgBuffer[bufIndex - 1] := NUL;
          }
          state := DisplayingData;
        }
      }
    }

    /** The `DISPLAYING_DATA` case: redraw the message, set the LED from it,
        and move on when the button reads 0. */
    method ShowMessage(button: bool)
      requires Valid() && state == DisplayingData
      modifies this`lcd, this`led, this`state
      ensures Valid()
      ensures lcd == old(lcd) + WrappedScreen(Message())
      ensures led == (Message() == Trigger)
      ensures state == (if button then DisplayingData else ClearingDisplay)
    {
      ImageTerminated(Strip(received));
      var ops := DisplayWrappedText(msgBuffer);
      lcd := lcd + ops;
      led := CString(msgBuffer[..]) == Trigger;
      if !button {
        state := ClearingDisplay;
      }
    }

    /** The `CLEARING_DISPLAY` case: idle screen, LED off, buffer and cursor
        zeroed, stale serial input discarded, back to waiting. */
    method ClearSession()
      requires Valid()
      modifies this, msgBuffer
      ensures Valid()
      ensures msgBuffer[..] == Zeros(BufferSize) && bufIndex == 0 && received == []
      ensures !led && state == WaitingForData && rx == []
      ensures lcd == old(lcd) + IdleScreen
    {
      lcd := lcd + IdleScreen;
      led := false;
      forall k | 0 <= k < msgBuffer.Length {
        msgBuffer[k] := NUL;
      }
      bufIndex := 0;
      received := [];
      state := WaitingForData;
      DrainSerial();
    }

    /** One iteration of the control loop; `button` is the level the button
        pin reads (it is active low, so false means pressed). */
    method Step(button: bool)
      requires Valid()
      modifies this, msgBuffer
      ensures Valid()
      ensures old(state) == WaitingForData ==>
        lcd == old(lcd) && led == old(led) &&
        (old(rx) == [] ==>
          state == WaitingForData && rx == [] && received == old(received) &&
          msgBuffer[..] == old(msgBuffer[..])) &&
        (old(rx) != [] ==>
          old(bufIndex) < BufferSize - 1 &&
          rx == old(rx)[1..] &&
          received == old(received) + [old(rx)[0]] &&
          bufIndex == old(bufIndex) + 1 &&
          (state == DisplayingData <==> IsTerminator(old(rx)[0]) || bufIndex >= BufferSize - 1) &&
          (state == DisplayingData || state == WaitingForData) &&
          (state == DisplayingData <==> Complete(received)) &&
          (state == DisplayingData ==> Message() == FrameMessage(received)))
      ensures old(state) == DisplayingData ==>
        received == old(received) && bufIndex == old(bufIndex) &&
        msgBuffer[..] == old(msgBuffer[..]) && rx == old(rx) &&
        lcd == old(lcd) + WrappedScreen(old(Message())) &&
        led == (Message() == Trigger) &&
        state == (if button then DisplayingData else ClearingDisplay)
      ensures old(state) == ClearingDisplay ==>
        msgBuffer[..] == Zeros(BufferSize) && bufIndex == 0 && received == [] &&
        !led && state == WaitingForData && rx == [] &&
        lcd == old(lcd) + IdleScreen
    {
      match state
      case WaitingForData => ReadByte();
      case DisplayingData => ShowMessage(button);
      case ClearingDisplay => ClearSession();
    }
  }
}
