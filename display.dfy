/** The display side of the firmware. The LCD is an output channel: the model
    records what is drawn as a list of operations (a clear, or a text drawn
    centred on a numbered line) and leaves fonts and colours aside. */
module Display {
  import opened CStrings
  import opened TextWrapper

  datatype LcdOp = Clear | DrawAt(line: int, text: string)

  /** Font16 gives about 30 characters per line. */
  const MaxCharsPerLine: nat := 30
  const HeaderLine: int := 1
  const FirstBodyLine: int := 3

  /** What `main` draws before entering its loop. */
  const StartupScreen: seq<LcdOp> := [Clear, DrawAt(2, "START UP"), DrawAt(4, "Waiting for data...")]

  /** What `clearDisplay` draws. */
  const IdleScreen: seq<LcdOp> := [Clear, DrawAt(2, "SEARCHING FOR FACE"), DrawAt(4, "USER...")]

  /** The start of every message screen: a cleared LCD and the header. */
  const Header: seq<LcdOp> := [Clear, DrawAt(HeaderLine, "Connected!")]

  /** Piece k drawn on line `line + k`. */
  function BodyLines(cs: seq<seq<char>>, line: int): (ops: seq<LcdOp>)
    ensures |ops| == |cs|
    ensures forall k :: 0 <= k < |cs| ==> ops[k] == DrawAt(line + k, cs[k])
  {
    if cs == [] then [] else [DrawAt(line, cs[0])] + BodyLines(cs[1..], line + 1)
  }

  /** The screen `displayWrappedText` draws for a message. */
  function WrappedScreen(msg: seq<char>): seq<LcdOp>
  {
    Header + BodyLines(Chunks(msg, MaxCharsPerLine), FirstBodyLine)
  }

  /** A message screen is the header followed by ceil(|msg| / 30) body lines;
      body line k sits on LINE(3 + k) and shows the k-th 30-character slice of
      the message. An empty message draws the header alone. */
  lemma WrappedScreenShape(msg: seq<char>)
    ensures |WrappedScreen(msg)| == 2 + (|msg| + MaxCharsPerLine - 1) / MaxCharsPerLine
    ensures WrappedScreen(msg)[..2] == Header
    ensures msg == [] <==> WrappedScreen(msg) == Header
    ensures forall k :: 0 <= k < |WrappedScreen(msg)| - 2 ==>
      WrappedScreen(msg)[2 + k] ==
        DrawAt(FirstBodyLine + k, Slice(msg, MaxCharsPerLine, k))
  {
    var cs := Chunks(msg, MaxCharsPerLine);
    ChunksCount(msg, MaxCharsPerLine);
    forall k | 0 <= k < |cs| ensures cs[k] == Slice(msg, MaxCharsPerLine, k) {
      ChunkAt(msg, MaxCharsPerLine, k);
    }
    if msg != [] {
      assert |WrappedScreen(msg)| > |Header|;
    }
  }

  /** The screen for "Hello": the header and one body line. */
  lemma HelloScreen()
    ensures WrappedScreen("Hello") == [Clear, DrawAt(HeaderLine, "Connected!"), DrawAt(FirstBodyLine, "Hello")]
  {
    assert Chunks("Hello", MaxCharsPerLine) == ["Hello"];
  }

  /** Drawing one more piece adds one line below the others. */
  lemma BodyLinesSnoc(cs: seq<seq<char>>, c: seq<char>, line: int)
    ensures BodyLines(cs + [c], line) == BodyLines(cs, line) + [DrawAt(line + |cs|, c)]
  {
    var l, r := BodyLines(cs + [c], line), BodyLines(cs, line) + [DrawAt(line + |cs|, c)];
    assert forall k :: 0 <= k < |l| ==> l[k] == r[k];
  }

  /** The loop's drawing step: after the first n pieces, drawing piece n on
      the next line gives the screen of the first n + 1 pieces. */
  lemma ScreenStep(pieces: seq<seq<char>>, n: nat, ops: seq<LcdOp>)
    requires n < |pieces|
    requires ops == Header + BodyLines(pieces[..n], FirstBodyLine)
    ensures ops + [DrawAt(FirstBodyLine + n, pieces[n])] == Header + BodyLines(pieces[..n + 1], FirstBodyLine)
  {
    assert pieces[..n + 1] == pieces[..n] + [pieces[n]];
    BodyLinesSnoc(pieces[..n], pieces[n], FirstBodyLine);
  }

  /** The loop's copy step: `strncpy(buffer, message + i, 30)` into a zeroed
      31-character buffer leaves the slice of the C string that starts at i
      and is at most 30 long. */
  lemma CopiedSlice(m: seq<char>, i: nat)
    requires i < |CString(m)|
    ensures CString(StrNCpy(m[i..], MaxCharsPerLine) + [NUL]) ==
      CString(m)[i .. Min(i + MaxCharsPerLine, |CString(m)|)]
  {
    var s := CString(m);
    CStringSuffix(m, i);
    StrNCpyCopies(m[i..], MaxCharsPerLine);
    TakeOfDrop(s, i, MaxCharsPerLine);
  }

  /** One iteration of the chunking loop, at i = 30 * n inside the message:
      the copied text is piece n, drawing it on line 3 + n extends the screen
      by that piece, and it is the last piece exactly when i + 30 reaches the
      end. */
  lemma DrawStep(m: seq<char>, n: nat, i: nat, text: string, ops: seq<LcdOp>)
    requires i == MaxCharsPerLine * n && i < |CString(m)|
    requires text == CString(StrNCpy(m[i..], MaxCharsPerLine) + [NUL])
    requires n <= |Chunks(CString(m), MaxCharsPerLine)|
    requires ops == Header + BodyLines(Chunks(CString(m), MaxCharsPerLine)[..n], FirstBodyLine)
    ensures n < |Chunks(CString(m), MaxCharsPerLine)|
    ensures text == Chunks(CString(m), MaxCharsPerLine)[n]
    ensures ops + [DrawAt(FirstBodyLine + n, text)] ==
      Header + BodyLines(Chunks(CString(m), MaxCharsPerLine)[..n + 1], FirstBodyLine)
    ensures n + 1 == |Chunks(CString(m), MaxCharsPerLine)| <==> i + MaxCharsPerLine >= |CString(m)|
  {
    var s := CString(m);
    var pieces := Chunks(s, MaxCharsPerLine);
    CopiedSlice(m, i);
    PieceAt(s, MaxCharsPerLine, n, i);
    ScreenStep(pieces, n, ops);
  }

  /** `displayWrappedText(message)`: clear, draw the header, then walk the C
      string in steps of 30, copying each step through a zeroed 31-character
      buffer with `strncpy` and drawing the buffer on the next line. */
  method DisplayWrappedText(message: array<char>) returns (ops: seq<LcdOp>)
    requires NUL in message[..]
    ensures ops == WrappedScreen(CString(message[..]))
  {
    var m := message[..];
    ghost var pieces := Chunks(CString(m), MaxCharsPerLine);
    ChunksCount(CString(m), MaxCharsPerLine);
    assert |pieces| == 0 <==> CString(m) == [];
    ops := Header;
    var len := |CString(m)|;
    var line := FirstBodyLine;
    var i := 0;
    while i < len
      invariant line >= FirstBodyLine
      invariant i == MaxCharsPerLine * (line - FirstBodyLine)
      invariant line - FirstBodyLine <= |pieces|
      invariant line - FirstBodyLine == |pieces| <==> i >= len
      invariant ops == Header + BodyLines(pieces[..line - FirstBodyLine], FirstBodyLine)
    {
      var buffer := new char[MaxCharsPerLine + 1](_ => NUL);
      var copied := StrNCpy(m[i..], MaxCharsPerLine);
      forall j | 0 <= j < MaxCharsPerLine {
        buffer[j] := copied[j];
      }
      assert buffer[..] == copied + [NUL];
      var text := CString(buffer[..]);
      DrawStep(m, line - FirstBodyLine, i, text, ops);
      ops := ops + [DrawAt(line, text)];
      line := line + 1;
      i := i + MaxCharsPerLine;
    }
    assert pieces[..line - FirstBodyLine] == pieces;
  }
}
