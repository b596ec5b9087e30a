/** NUL-terminated character strings, as the firmware's `strlen`, `strcmp`
    and `strncpy` see them. A C string stored in a buffer is everything before
    the buffer's first NUL. */
module CStrings {

  const NUL: char := '\0'

  function Min(a: int, b: int): int { if a <= b then a else b }

  /** `n` NUL characters: what `memset(buf, 0, n)` leaves behind. */
  function Zeros(n: nat): (r: seq<char>)
    ensures |r| == n
    ensures forall i :: 0 <= i < n ==> r[i] == NUL
  {
    seq(n, _ => NUL)
  }

  /** The C string held by `s`: the longest prefix without a NUL. When `s`
      holds no NUL at all, that is the whole of `s`. */
  function CString(s: seq<char>): (r: seq<char>)
    ensures |r| <= |s| && r == s[..|r|]
    ensures NUL !in r
    ensures |r| < |s| ==> s[|r|] == NUL
  {
    if s == [] || s[0] == NUL then [] else [s[0]] + CString(s[1..])
  }

  /** The three facts CString promises determine it: any NUL-free prefix of
      `s` that is followed by a NUL (or by the end of `s`) is CString(s). */
  lemma CStringUnique(s: seq<char>, r: seq<char>)
    requires |r| <= |s| && r == s[..|r|]
    requires NUL !in r
    requires |r| < |s| ==> s[|r|] == NUL
    ensures r == CString(s)
  {
  }

  /** A NUL-free string is its own C string. */
  lemma CStringOfNulFree(s: seq<char>)
    requires NUL !in s
    ensures CString(s) == s
  {
    CStringUnique(s, s);
  }

  /** A C string is not disturbed by what follows its terminating NUL. */
  lemma CStringOfTerminated(x: seq<char>, t: seq<char>)
    requires NUL !in x
    requires t != [] && t[0] == NUL
    ensures CString(x + t) == x
  {
    CStringUnique(x + t, x);
  }

  /** A character other than NUL in front of a string extends its C string. */
  lemma CStringCons(c: char, x: seq<char>)
    requires c != NUL
    ensures CString([c] + x) == [c] + CString(x)
  {
    assert ([c] + x)[1..] == x;
  }

  /** Pointer arithmetic within a C string: `strlen(s + i)` reads the tail of
      the string held at `s`. */
  lemma CStringSuffix(s: seq<char>, i: nat)
    requires i <= |CString(s)|
    ensures CString(s[i..]) == CString(s)[i..]
  {
    var c := CString(s);
    CStringUnique(s[i..], c[i..]);
  }

  /** The first w characters from position i are the slice from i, cut at
      the end of `s`. */
  lemma TakeOfDrop(s: seq<char>, i: nat, w: nat)
    requires i <= |s|
    ensures s[i..][..Min(w, |s| - i)] == s[i .. Min(i + w, |s|)]
  {
  }

  /** `strncpy(dst, src, n)`: the `n` characters it stores in `dst`. It copies
      characters of `src` up to the first NUL or `n` of them, and pads the
      rest with NULs. The end of `src` reads as its terminator. */
  function StrNCpy(src: seq<char>, n: nat): (r: seq<char>)
    ensures |r| == n
  {
    if n == 0 then []
    else if src == [] || src[0] == NUL then Zeros(n)
    else [src[0]] + StrNCpy(src[1..], n - 1)
  }

  /** Past the end of the source's C string, `strncpy` pads with NULs. */
  lemma {:induction false} StrNCpyPads(src: seq<char>, n: nat)
    ensures forall j :: |CString(src)| <= j < n ==> StrNCpy(src, n)[j] == NUL
  {
    if n > 0 && src != [] && src[0] != NUL {
      StrNCpyPads(src[1..], n - 1);
      CStringCons(src[0], src[1..]);
      assert src == [src[0]] + src[1..];
    }
  }

  /** With a NUL after the `n` copied characters, the destination holds the
      first `n` characters of the source's C string (all of it when shorter). */
  lemma {:induction false} StrNCpyCopies(src: seq<char>, n: nat)
    ensures CString(StrNCpy(src, n) + [NUL]) == CString(src)[..Min(n, |CString(src)|)]
  {
    if n == 0 {
      assert StrNCpy(src, n) + [NUL] == [NUL];
    } else if src == [] || src[0] == NUL {
      CStringOfTerminated([], Zeros(n) + [NUL]);
    } else {
      StrNCpyCopies(src[1..], n - 1);
      CopiesStep(src, n);
    }
  }

  /** The step of StrNCpyCopies: a copied non-NUL character heads both sides. */
  lemma CopiesStep(src: seq<char>, n: nat)
    requires n > 0 && src != [] && src[0] != NUL
    requires CString(StrNCpy(src[1..], n - 1) + [NUL]) ==
      CString(src[1..])[..Min(n - 1, |CString(src[1..])|)]
    ensures CString(StrNCpy(src, n) + [NUL]) == CString(src)[..Min(n, |CString(src)|)]
  {
    var tail := StrNCpy(src[1..], n - 1);
    var c := CString(src[1..]);
    var k := Min(n - 1, |c|);
    var b := StrNCpy(src, n) + [NUL];
    assert b == [src[0]] + (tail + [NUL]);
    CStringCons(src[0], tail + [NUL]);
    assert CString(b) == [src[0]] + c[..k];
    assert src == [src[0]] + src[1..];
    CStringCons(src[0], src[1..]);
    var whole := CString(src);
    assert whole == [src[0]] + c;
    assert Min(n, |whole|) == k + 1;
    assert whole[..k + 1] == [src[0]] + c[..k];
  }
}
