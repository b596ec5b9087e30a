/** The line assembler of the `WAITING_FOR_DATA` state, stated on the bytes it
    has appended since the last reset. The firmware keeps those bytes at the
    front of the 64-character `msgBuffer`, the rest of which stays NUL. */
module LineAssembler {
  import opened CStrings

  datatype Option<T> = None | Some(value: T)

  const BufferSize: nat := 64

  predicate IsTerminator(c: char)
  {
    c == '\n' || c == '\r'
  }

  predicate NoTerminator(r: seq<char>)
  {
    forall i :: 0 <= i < |r| ==> !IsTerminator(r[i])
  }

  /** The bytes of a message still being assembled: fewer than 63, and no
      terminator among them (either would have completed the message). */
  predicate Collecting(r: seq<char>)
  {
    |r| < BufferSize - 1 && NoTerminator(r)
  }

  /** The completion test, made after appending `c` to `r`: the byte is a
      line terminator, or the cursor has reached BUFFER_SIZE - 1. */
  predicate CompletesWith(r: seq<char>, c: char)
  {
    IsTerminator(c) || |r| + 1 >= BufferSize - 1
  }

  /** The bytes of a completed message: bytes that were still collecting,
      followed by the byte that completed them. */
  predicate Complete(f: seq<char>)
  {
    |f| > 0 && Collecting(f[..|f| - 1]) && CompletesWith(f[..|f| - 1], f[|f| - 1])
  }

  /** The one trailing terminator that completion blanks, if there is one. */
  function Strip(f: seq<char>): seq<char>
  {
    if |f| > 0 && IsTerminator(f[|f| - 1]) then f[..|f| - 1] else f
  }

  /** The whole buffer when it holds `r` and nothing else. */
  function Image(r: seq<char>): (b: seq<char>)
    requires |r| < BufferSize
    ensures |b| == BufferSize && b[..|r|] == r
    ensures forall i :: |r| <= i < BufferSize ==> b[i] == NUL
  {
    r + Zeros(BufferSize - |r|)
  }

  /** The message the firmware then displays: the C string of the buffer
      completion leaves behind. It is the stripped bytes up to any NUL byte
      received, and never holds a terminator. */
  function FrameMessage(f: seq<char>): (m: seq<char>)
    requires Complete(f)
    ensures m == CString(Strip(f))
    ensures NoTerminator(m) && |m| <= BufferSize - 1
  {
    var b := Strip(f);
    assert NoTerminator(b);
    CStringOfTerminated(CString(b), Image(b)[|CString(b)|..]);
    assert Image(b) == CString(b) + Image(b)[|CString(b)|..];
    CString(Image(b))
  }

  /** A message completed by a terminator is the bytes before it, with the
      terminator blanked: exactly one character is stripped. */
  lemma TerminatedMessage(f: seq<char>)
    requires Complete(f) && IsTerminator(f[|f| - 1])
    requires NUL !in f
    ensures FrameMessage(f) == f[..|f| - 1]
    ensures |FrameMessage(f)| == |f| - 1
  {
    assert NUL !in f[..|f| - 1];
    CStringOfNulFree(f[..|f| - 1]);
  }

  /** A message completed by the capacity rule alone (its last byte is no
      terminator) holds 63 bytes, nothing is stripped, and the buffer keeps
      its NUL at index 63. */
  lemma OverflowMessage(f: seq<char>)
    requires Complete(f) && !IsTerminator(f[|f| - 1])
    ensures |f| == BufferSize - 1 && NoTerminator(f)
    ensures Image(Strip(f)) == f + [NUL]
    ensures NUL !in f ==> FrameMessage(f) == f && |FrameMessage(f)| == BufferSize - 1
  {
    assert f == f[..|f| - 1] + [f[|f| - 1]];
    if NUL !in f {
      CStringOfNulFree(f);
    }
  }

  /** Scanning a byte stream from position k, where the bytes before k are
      still collecting: the length of the completed message, if the stream
      completes one. */
  function Scan(s: seq<char>, k: nat): Option<nat>
    requires k <= |s| && Collecting(s[..k])
    decreases |s| - k
  {
    if k == |s| then None
    else if CompletesWith(s[..k], s[k]) then Some(k + 1)
    else
      assert s[..k + 1] == s[..k] + [s[k]];
      Scan(s, k + 1)
  }

  /** How many bytes of the stream `s`, fed one per tick from a reset, the
      assembler consumes before it completes a message (None: it is still
      waiting when the stream runs out). */
  function FrameLength(s: seq<char>): Option<nat>
  {
    Scan(s, 0)
  }

  /** Once a prefix of the stream is a completed message, no longer prefix
      is one. */
  lemma NotCompleteAfter(s: seq<char>, m: nat, n: nat)
    requires 0 < m < n <= |s| && Complete(s[..m])
    ensures !Complete(s[..n])
  {
    assert s[..n][..n - 1][m - 1] == s[m - 1];
    assert s[..m][m - 1] == s[m - 1];
    assert s[..m][..m - 1] == s[..n][..n - 1][..m - 1];
  }

  lemma {:induction false} ScanSpec(s: seq<char>, k: nat, n: nat)
    requires k <= |s| && Collecting(s[..k])
    ensures Scan(s, k) == Some(n) <==> (k < n <= |s| && Complete(s[..n]))
    decreases |s| - k
  {
    if k < |s| {
      assert s[..k + 1][..k] == s[..k];
      assert s[..k + 1][k] == s[k];
      if !CompletesWith(s[..k], s[k]) {
        assert s[..k + 1] == s[..k] + [s[k]];
        assert !Complete(s[..k + 1]);
        ScanSpec(s, k + 1, n);
      } else {
        assert Complete(s[..k + 1]);
        if k + 1 < n <= |s| {
          NotCompleteAfter(s, k + 1, n);
        }
      }
    }
  }

  /** One tick of the scan: the next byte either completes the message, or
      leaves the bytes so far collecting and the scan to go on from there. */
  lemma ScanAdvance(s: seq<char>, k: nat)
    requires k < |s| && Collecting(s[..k])
    ensures Complete(s[..k + 1]) ==> Scan(s, k) == Some(k + 1)
    ensures !Complete(s[..k + 1]) ==> Collecting(s[..k + 1]) && Scan(s, k) == Scan(s, k + 1)
  {
    assert s[..k + 1][..k] == s[..k];
    assert s[..k + 1] == s[..k] + [s[k]];
  }

  /** The assembler completes after exactly n bytes of the stream if and only
      if those n bytes form a completed message. */
  lemma FrameLengthSpec(s: seq<char>, n: nat)
    ensures FrameLength(s) == Some(n) <==> (0 < n <= |s| && Complete(s[..n]))
  {
    ScanSpec(s, 0, n);
  }

  lemma {:induction false} ScanCollecting(s: seq<char>, k: nat)
    requires k <= |s| && Collecting(s)
    ensures Collecting(s[..k]) && Scan(s, k) == None
    decreases |s| - k
  {
    if k < |s| {
      assert s[..k + 1][..k] == s[..k];
      ScanCollecting(s, k + 1);
    }
  }

  /** Fewer than 63 bytes without a terminator never complete a message. */
  lemma NoFrameWhileCollecting(s: seq<char>)
    requires Collecting(s)
    ensures FrameLength(s) == None
  {
    ScanCollecting(s, 0);
  }

  /** 63 bytes without a terminator complete a message of all 63 of them;
      any further bytes are left unread for the reset to discard. */
  lemma OverflowFrame(s: seq<char>)
    requires |s| >= BufferSize - 1 && NoTerminator(s[..BufferSize - 1])
    ensures FrameLength(s) == Some(BufferSize - 1)
    ensures NUL !in s[..BufferSize - 1] ==> FrameMessage(s[..BufferSize - 1]) == s[..BufferSize - 1]
  {
    var f := s[..BufferSize - 1];
    assert f[..|f| - 1] == s[..BufferSize - 2];
    assert Complete(f);
    FrameLengthSpec(s, BufferSize - 1);
    OverflowMessage(f);
  }

  /** "Hello\r\n" completes on the carriage return with the message
      "Hello"; the line feed stays in the receive queue. */
  lemma HelloCrLf()
    ensures FrameLength("Hello\r\n") == Some(6)
    ensures FrameMessage("Hello\r") == "Hello"
  {
    var s := "Hello\r\n";
    assert s[..6] == "Hello\r";
    assert Complete(s[..6]);
    FrameLengthSpec(s, 6);
    TerminatedMessage("Hello\r");
  }

  /** "World\n" completes on the line feed with the message "World". */
  lemma WorldLf()
    ensures FrameLength("World\n") == Some(6)
    ensures FrameMessage("World\n") == "World"
  {
    var s := "World\n";
    assert s[..6] == s;
    assert Complete(s);
    FrameLengthSpec(s, 6);
    TerminatedMessage(s);
  }

  /** A terminator as the first byte completes the empty message. */
  lemma EmptyLine(c: char, rest: seq<char>)
    requires IsTerminator(c)
    ensures FrameLength([c] + rest) == Some(1)
    ensures FrameMessage([c]) == []
  {
    var s := [c] + rest;
    assert s[..1] == [c];
    FrameLengthSpec(s, 1);
  }
}
