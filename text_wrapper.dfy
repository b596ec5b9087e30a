/** The text chunker of `displayWrappedText`: a message is cut into
    consecutive pieces of at most `n` characters, in order, with no trimming
    and no hyphenation. */
module TextWrapper {
  import opened CStrings

  /** The pieces written one after the other. */
  function Concat(cs: seq<seq<char>>): seq<char>
  {
    if cs == [] then [] else cs[0] + Concat(cs[1..])
  }

  /** The pieces the chunking loop produces for `s`: the loop starts a piece
      at every multiple of `n` below `|s|`. */
  function Chunks(s: seq<char>, n: nat): (cs: seq<seq<char>>)
    requires n > 0
    ensures Concat(cs) == s
    ensures forall k :: 0 <= k < |cs| ==> 0 < |cs[k]| <= n
    decreases |s|
  {
    if s == [] then []
    else if |s| <= n then [s]
    else
      var rest := Chunks(s[n..], n);
      assert s == s[..n] + s[n..];
      [s[..n]] + rest
  }

  lemma MulStep(q: int, n: int)
    ensures (q + 1) * n == q * n + n
  {
  }

  lemma {:induction false} MulMono(a: nat, b: nat, n: nat)
    requires a <= b
    ensures a * n <= b * n
    decreases b - a
  {
    if a < b {
      MulMono(a, b - 1, n);
      MulStep(b - 1, n);
    }
  }

  lemma DivMod(m: nat, n: nat)
    requires n > 0
    ensures m == (m / n) * n + m % n && 0 <= m % n < n
  {
  }

  /** Euclidean division has one quotient. */
  lemma DivUnique(m: nat, n: nat, q: nat, r: nat)
    requires n > 0 && r < n && m == q * n + r
    ensures m / n == q
  {
    var q2, r2 := m / n, m % n;
    assert m == q2 * n + r2;
    if q2 < q {
      MulMono(q2 + 1, q, n);
      MulStep(q2, n);
    } else if q < q2 {
      MulMono(q + 1, q2, n);
      MulStep(q, n);
    }
  }

  /** There are ceil(|s| / n) pieces; in particular none for the empty
      message. */
  lemma {:induction false} ChunksCount(s: seq<char>, n: nat)
    requires n > 0
    ensures |Chunks(s, n)| == (|s| + n - 1) / n
    decreases |s|
  {
    if s == [] {
      DivUnique(n - 1, n, 0, n - 1);
    } else if |s| <= n {
      DivUnique(|s| + n - 1, n, 1, |s| - 1);
    } else {
      ChunksCount(s[n..], n);
      var q, r := (|s| - 1) / n, (|s| - 1) % n;
      assert |Chunks(s, n)| == q + 1;
      assert |s| - 1 == q * n + r;
      MulStep(q, n);
      DivUnique(|s| + n - 1, n, q + 1, r);
    }
  }

  /** The slice of `s` that starts at k * n and is at most n long (empty when
      it would start past the end). */
  function Slice(s: seq<char>, n: nat, k: nat): seq<char>
  {
    if k * n >= |s| then [] else s[k * n .. Min(k * n + n, |s|)]
  }

  /** Dropping the first n characters moves every slice down by one. */
  lemma SliceShift(s: seq<char>, n: nat, k: nat)
    requires n > 0 && k > 0 && |s| >= n
    ensures Slice(s, n, k) == Slice(s[n..], n, k - 1)
  {
    MulStep(k - 1, n);
    var lo := (k - 1) * n;
    assert k * n == lo + n;
    if lo + n < |s| {
      assert s[n..][lo .. Min(lo + n, |s| - n)] == s[lo + n .. Min(lo + n + n, |s|)];
    }
  }

  /** Piece k is the slice of `s` starting at k * n, at most n long. */
  lemma {:induction false} ChunkAt(s: seq<char>, n: nat, k: nat)
    requires n > 0
    requires k < |Chunks(s, n)|
    ensures k * n < |s|
    ensures Chunks(s, n)[k] == Slice(s, n, k)
    decreases |s|
  {
    if k == 0 {
      assert k * n == 0;
    } else {
      assert |s| > n;
      assert Chunks(s, n)[k] == Chunks(s[n..], n)[k - 1];
      ChunkAt(s[n..], n, k - 1);
      MulStep(k - 1, n);
      SliceShift(s, n, k);
    }
  }

  /** The chunking loop's step: when a step starts at i = k * n inside the
      message, piece k exists, is the slice starting at i, and is the last
      piece exactly when the next step would start at or past the end. */
  lemma PieceAt(s: seq<char>, n: nat, k: nat, i: nat)
    requires n > 0 && i == k * n && i < |s|
    ensures k < |Chunks(s, n)|
    ensures Chunks(s, n)[k] == s[i .. Min(i + n, |s|)]
    ensures k + 1 == |Chunks(s, n)| <==> i + n >= |s|
  {
    ChunksCount(s, n);
    var q, r := (|s| + n - 1) / n, (|s| + n - 1) % n;
    DivMod(|s| + n - 1, n);
    MulStep(k, n);
    if q <= k {
      MulMono(q, k, n);
    } else {
      ChunkAt(s, n, k);
      if k + 1 < q {
        MulMono(k + 2, q, n);
        MulStep(k + 1, n);
      } else {
      }
    }
  }
}
