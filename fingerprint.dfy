/** The repetition detector of src/life.mjs: after each step the whole grid
    is cut into runs of 64 cells, each run read as a binary numeral (the
    BigInt of "0b" followed by the cell values, first cell most
    significant), and the list of those numbers is compared with the lists
    kept for the last `historyToKeep` steps. */
module Fingerprint {
  import opened Rule

  /** The number of cells per chunk. */
  const ChunkSize: nat := 64

  function Pow2(n: nat): (p: nat)
    ensures p >= 1
  {
    if n == 0 then 1 else 2 * Pow2(n - 1)
  }

  /** The value of the binary numeral spelled by the bits of s, first bit
      most significant. */
  function ChunkValue(s: seq<Bit>): (v: nat)
    ensures s != [] ==> v % 2 == s[|s| - 1]
    ensures v == 0 <==> forall i :: 0 <= i < |s| ==> s[i] == 0
  {
    if s == [] then 0 else 2 * ChunkValue(s[..|s| - 1]) + s[|s| - 1]
  }

  /** A chunk of k bits is a number below 2^k. */
  lemma {:induction false} ChunkValueBound(s: seq<Bit>)
    ensures ChunkValue(s) < Pow2(|s|)
  {
    if s != [] {
      ChunkValueBound(s[..|s| - 1]);
    }
  }

  /** Two chunks of the same length with the same value are the same bits. */
  lemma {:induction false} ChunkValueInjective(s: seq<Bit>, t: seq<Bit>)
    requires |s| == |t| && ChunkValue(s) == ChunkValue(t)
    ensures s == t
  {
    if s != [] {
      var n := |s| - 1;
      assert s[n] == t[n];
      ChunkValueInjective(s[..n], t[..n]);
      assert s == s[..n] + [s[n]];
      assert t == t[..n] + [t[n]];
    }
  }

  /** Leading zeros are lost: a shorter chunk can have the value of a longer
      one, so the encoding only tells grids of the same size apart. */
  lemma LeadingZerosLost()
    ensures ChunkValue([0, 1]) == ChunkValue([1]) == 1
  {
    assert [0, 1][..1] == [0];
    assert [0][..0] == [];
    assert [1][..0] == [];
  }

  /** The fingerprint of a grid: the values of its 64-cell chunks, front to
      back; the last chunk holds what is left over. */
  function Encode(g: seq<Bit>): (fp: seq<nat>)
    ensures fp == [] <==> g == []
    ensures g != [] ==> fp[0] == ChunkValue(g[..if |g| <= ChunkSize then |g| else ChunkSize])
    decreases |g|
  {
    if g == [] then []
    else if |g| <= ChunkSize then assert g[..|g|] == g; [ChunkValue(g)]
    else [ChunkValue(g[..ChunkSize])] + Encode(g[ChunkSize..])
  }

  /** One number per started chunk of 64 cells. */
  lemma {:induction false} EncodeLength(g: seq<Bit>)
    ensures |Encode(g)| == (|g| + ChunkSize - 1) / ChunkSize
    decreases |g|
  {
    if |g| > ChunkSize {
      EncodeLength(g[ChunkSize..]);
    }
  }

  /** The fingerprint is lossless on grids of one size. */
  lemma {:induction false} EncodeInjective(g: seq<Bit>, h: seq<Bit>)
    requires |g| == |h| && Encode(g) == Encode(h)
    ensures g == h
    decreases |g|
  {
    if g != [] {
      if |g| <= ChunkSize {
        ChunkValueInjective(g, h);
      } else {
        assert Encode(g)[0] == ChunkValue(g[..ChunkSize]) && Encode(g)[1..] == Encode(g[ChunkSize..]);
        assert Encode(h)[0] == ChunkValue(h[..ChunkSize]) && Encode(h)[1..] == Encode(h[ChunkSize..]);
        ChunkValueInjective(g[..ChunkSize], h[..ChunkSize]);
        EncodeInjective(g[ChunkSize..], h[ChunkSize..]);
        assert g == g[..ChunkSize] + g[ChunkSize..];
        assert h == h[..ChunkSize] + h[ChunkSize..];
      }
    }
  }

  /** Encoding the cells from `i` on, when at least one is left. */
  lemma EncodeFrom(g: seq<Bit>, i: nat)
    requires i < |g|
    ensures Encode(g[i..]) ==
      [ChunkValue(g[i..if i + ChunkSize < |g| then i + ChunkSize else |g|])] +
      Encode(g[if i + ChunkSize < |g| then i + ChunkSize else |g|..])
  {
    var j := if i + ChunkSize < |g| then i + ChunkSize else |g|;
    if i + ChunkSize < |g| {
      assert g[i..][..ChunkSize] == g[i..j];
      assert g[i..][ChunkSize..] == g[j..];
    } else {
      assert g[i..] == g[i..j];
      assert g[j..] == [];
    }
  }

  /** The chunking loop of src/life.mjs:101-110: for i = 0, 64, 128, ...,
      the cells from i up to i + 64 (fewer at the end) read as one number. */
  method Snapshot(a: array<Bit>) returns (fp: seq<nat>)
    ensures fp == Encode(a[..])
  {
    fp := [];
    var i := 0;
    while i < a.Length
      invariant 0 <= i <= a.Length
      invariant fp + Encode(a[i..]) == Encode(a[..])
      decreases a.Length - i
    {
      var j := if i + ChunkSize < a.Length then i + ChunkSize else a.Length;
      EncodeFrom(a[..], i);
      assert a[..][i..] == a[i..] && a[..][i..j] == a[i..j] && a[..][j..] == a[j..];
      fp := fp + [ChunkValue(a[i..j])];
      i := j;
    }
    assert a[i..] == [];
  }

  /** The comparison of src/life.mjs:112 for one kept fingerprint h: every
      number of h equals the number at the same place in fp (a place past
      the end of fp holds no number, so it never matches). */
  predicate Matches(h: seq<nat>, fp: seq<nat>): (b: bool)
    ensures b <==> |h| <= |fp| && h == fp[..|h|]
  {
    var every := forall i :: 0 <= i < |h| ==> i < |fp| && fp[i] == h[i];
    assert every ==> |h| <= |fp| && h == fp[..|h|] by {
      if every && |h| > 0 {
        var k := |h| - 1;
        assert k < |fp| && fp[k] == h[k];
        assert forall i :: 0 <= i < |h| ==> h[i] == fp[..|h|][i];
      }
    }
    every
  }

  /** On fingerprints of one length, matching is equality. */
  lemma MatchesIsEquality(h: seq<nat>, fp: seq<nat>)
    requires |h| == |fp|
    ensures Matches(h, fp) <==> h == fp
  {
  }

  /** The lookup of src/life.mjs:112: some kept fingerprint matches. */
  predicate Seen(history: seq<seq<nat>>, fp: seq<nat>): (b: bool)
    ensures fp in history ==> b
    ensures history == [] ==> !b
  {
    exists k :: 0 <= k < |history| && Matches(history[k], fp)
  }

  /** When the history holds the fingerprints of grids of the same size,
      the detector fires exactly when the new grid is one of those grids. */
  lemma SeenIsRepeat(history: seq<seq<nat>>, past: seq<seq<Bit>>, g: seq<Bit>)
    requires |history| == |past|
    requires forall k :: 0 <= k < |past| ==> |past[k]| == |g| && history[k] == Encode(past[k])
    ensures Seen(history, Encode(g)) <==> exists k :: 0 <= k < |past| && past[k] == g
  {
    forall k | 0 <= k < |past|
      ensures Matches(history[k], Encode(g)) <==> past[k] == g
    {
      MatchesSameSize(past[k], g);
    }
  }

  /** The fingerprint of a grid matches that of another grid of its size
      exactly when the two grids are equal. */
  lemma MatchesSameSize(p: seq<Bit>, g: seq<Bit>)
    requires |p| == |g|
    ensures Matches(Encode(p), Encode(g)) <==> p == g
  {
    EncodeLength(p);
    EncodeLength(g);
    MatchesIsEquality(Encode(p), Encode(g));
    if Encode(p) == Encode(g) {
      EncodeInjective(p, g);
    }
  }

  /** The history update of src/life.mjs:116-117 on the real entries of
      the history, newest first: the new entry goes to the front, and once
      the list is longer than `keep` its last entry is dropped.  The array
      starts with `keep` holes (src/life.mjs:38), which fill the back, so a
      real entry is only dropped once `keep` of them are kept. */
  function Remember<T>(history: seq<T>, x: T, keep: nat): (r: seq<T>)
    ensures |r| <= keep
    ensures |r| == if |history| + 1 <= keep then |history| + 1 else keep
    ensures keep > 0 ==> r[0] == x
    ensures forall k :: 1 <= k < |r| ==> k - 1 < |history| && r[k] == history[k - 1]
  {
    var h := [x] + history;
    if |h| > keep then h[..keep] else h
  }
}
