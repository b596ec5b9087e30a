/** Sessions driven through the firmware's loop, one Step per tick. */
module Scenarios {
  import opened CStrings
  import opened LineAssembler
  import opened Display
  import opened Session

  /** The loop of `main` while it waits for data and input is available,
      starting from an empty assembler: it consumes exactly the bytes of the
      first completed message of the queued stream, or all of the stream when
      that completes none. */
  method WaitForMessage(fw: Firmware)
    requires fw.Valid() && fw.state == WaitingForData && fw.received == []
    modifies fw, fw.msgBuffer
    ensures fw.Valid() && fw.led == old(fw.led) && fw.lcd == old(fw.lcd)
    ensures match FrameLength(old(fw.rx))
      case Some(n) =>
        n <= |old(fw.rx)| && fw.state == DisplayingData &&
        fw.received == old(fw.rx)[..n] && fw.rx == old(fw.rx)[n..] &&
        fw.Message() == FrameMessage(fw.received)
      case None =>
        fw.state == WaitingForData && fw.received == old(fw.rx) && fw.rx == []
  {
    ghost var s := fw.rx;
    ghost var k := 0;
    while fw.state == WaitingForData && fw.rx != []
      invariant fw.Valid() && fw.state != ClearingDisplay
      invariant 0 <= k <= |s| && fw.received == s[..k] && fw.rx == s[k..]
      invariant fw.led == old(fw.led) && fw.lcd == old(fw.lcd)
      invariant fw.state == WaitingForData ==> FrameLength(s) == Scan(s, k)
      invariant fw.state == DisplayingData ==>
        FrameLength(s) == Some(k) && fw.Message() == FrameMessage(fw.received)
      decreases |fw.rx|
    {
      assert s[k] == fw.rx[0];
      assert s[..k + 1] == s[..k] + [s[k]];
      ScanAdvance(s, k);
      fw.Step(true);
      k := k + 1;
    }
    if fw.state == WaitingForData {
      assert k == |s|;
    }
  }

  /** From a completed message: a tick with the button released draws the
      message and sets the LED from it, a tick with the button pressed moves
      to clearing, and the clearing tick empties the assembler, turns the LED
      off and discards whatever input is left. */
  method DisplayAndAcknowledge(fw: Firmware)
    returns (shown: seq<LcdOp>, ledWhileShown: bool)
    requires fw.Valid() && fw.state == DisplayingData
    modifies fw, fw.msgBuffer
    ensures fw.Valid()
    ensures shown == WrappedScreen(old(fw.Message())) && ledWhileShown == (old(fw.Message()) == Trigger)
    ensures fw.state == WaitingForData && !fw.led && fw.rx == [] && fw.bufIndex == 0
    ensures fw.msgBuffer[..] == Zeros(BufferSize)
  {
    var before := fw.lcd;
    fw.Step(true);
    shown, ledWhileShown := fw.lcd[|before|..], fw.led;
    fw.Step(false);
    fw.Step(true);
  }

  /** "Hello\r\n" after start-up: the message "Hello" is drawn with the LED
      on; after the button press the LED is off, the buffer is zero, the
      trailing line feed has been discarded and the firmware is waiting again
      with an empty assembler. */
  method HelloSession()
    returns (shown: seq<LcdOp>, ledWhileShown: bool, ledAfterReset: bool, leftover: seq<char>,
             buffer: seq<char>, finalState: State, finalIndex: int)
    ensures shown == WrappedScreen("Hello")
    ensures shown == [Clear, DrawAt(1, "Connected!"), DrawAt(3, "Hello")]
    ensures ledWhileShown && !ledAfterReset
    ensures leftover == [] && buffer == Zeros(BufferSize)
    ensures finalState == WaitingForData && finalIndex == 0
  {
    var fw := new Firmware();
    fw.Receive("Hello\r\n");
    HelloCrLf();
    WaitForMessage(fw);
    assert fw.received == "Hello\r";
    assert fw.Message() == "Hello";
    shown, ledWhileShown := DisplayAndAcknowledge(fw);
    ledAfterReset, leftover, buffer := fw.led, fw.rx, fw.msgBuffer[..];
    finalState, finalIndex := fw.state, fw.bufIndex;
    HelloScreen();
  }

  /** "World\n" after start-up: the message is drawn but the LED stays off. */
  method WorldSession() returns (shown: seq<LcdOp>, ledWhileShown: bool)
    ensures shown == WrappedScreen("World")
    ensures !ledWhileShown
  {
    var fw := new Firmware();
    fw.Receive("World\n");
    WorldLf();
    WaitForMessage(fw);
    assert fw.received == "World\n";
    assert fw.Message() == "World";
    shown, ledWhileShown := DisplayAndAcknowledge(fw);
  }

  /** Two resets in a row, with no input in between, leave the assembler,
      the LED, the state and the receive queue as the first one left them. */
  method ResetTwice(fw: Firmware)
    returns (first: (seq<char>, int, State, bool, seq<char>), second: (seq<char>, int, State, bool, seq<char>))
    requires fw.Valid()
    modifies fw, fw.msgBuffer
    ensures first == second
    ensures first == (Zeros(BufferSize), 0, WaitingForData, false, [])
  {
    fw.ClearSession();
    first := (fw.msgBuffer[..], fw.bufIndex, fw.state, fw.led, fw.rx);
    fw.ClearSession();
    second := (fw.msgBuffer[..], fw.bufIndex, fw.state, fw.led, fw.rx);
  }
}
