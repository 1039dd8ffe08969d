/// Cutting an answer into byte-bounded chunks of whole code points
/// (splitUTF8ByByteLimit in textutil.go).
///
/// The specification is greedy: drop every code point that cannot fit in any
/// chunk, then repeatedly take the longest prefix whose UTF-8 encoding fits
/// in `limit` bytes.  The loop of the source builds the same chunks one code
/// point at a time.
module Chunking {
  import opened Utf8

  /** Every code point of `k` fits in a chunk on its own. */
  predicate AllFit(k: string, limit: int)
  {
    forall j :: 0 <= j < |k| ==> RuneLen(k[j]) <= limit
  }

  /** `s` without the code points whose encoding is longer than `limit`. */
  function Keep(s: string, limit: int): (k: string)
    ensures |k| <= |s|
  {
    if s == [] then []
    else (if RuneLen(s[0]) <= limit then [s[0]] else []) + Keep(s[1..], limit)
  }

  /** The number of leading code points of `k` whose encoding fits in `limit`
      bytes: the longest prefix that fits, since one more code point would not. */
  function Fit(k: string, limit: int): (n: nat)
    ensures n <= |k|
  {
    if k == [] || RuneLen(k[0]) > limit then 0 else 1 + Fit(k[1..], limit - RuneLen(k[0]))
  }

  /** Fit gives the longest prefix that fits: it fits, one more code point
      would not, and it is never empty when the first code point fits. */
  lemma {:induction false} FitLongest(k: string, limit: int)
    ensures limit >= 0 ==> ByteLen(k[..Fit(k, limit)]) <= limit
    ensures Fit(k, limit) < |k| ==> ByteLen(k[..Fit(k, limit) + 1]) > limit
    ensures k != [] && RuneLen(k[0]) <= limit ==> Fit(k, limit) >= 1
  {
    if k != [] && RuneLen(k[0]) <= limit {
      var n := Fit(k, limit);
      FitLongest(k[1..], limit - RuneLen(k[0]));
      assert k[..n][0] == k[0] && k[..n][1..] == k[1..][..n - 1];
      if n < |k| {
        assert k[..n + 1][0] == k[0] && k[..n + 1][1..] == k[1..][..n];
      }
    }
  }

  /** The greedy partition of `k` into chunks of at most `limit` bytes.  It is
      applied only to code points that all fit, where the longest fitting
      prefix is never empty; on other input it still takes one code point. */
  function Greedy(k: string, limit: int): seq<string>
    decreases |k|
  {
    if k == [] then []
    else
      var n := if Fit(k, limit) == 0 then 1 else Fit(k, limit);
      [k[..n]] + Greedy(k[n..], limit)
  }

  /** The chunks of `s` for byte limit `limit`; the single empty chunk when no
      code point is kept, so that an answer always has a record. */
  function Split(s: string, limit: int): (chunks: seq<string>)
    ensures |chunks| >= 1
  {
    var g := Greedy(Keep(s, limit), limit);
    if g == [] then [""] else g
  }

  /** The chunks read back in order. */
  function Concat(chunks: seq<string>): string
  {
    if chunks == [] then [] else chunks[0] + Concat(chunks[1..])
  }

  /** What makes a partition of `k` greedy: non-empty chunks within the limit
      that concatenate to `k`, each of which the first code point of the next
      one would overflow. */
  predicate IsGreedyPartition(chunks: seq<string>, k: string, limit: int)
  {
    && Concat(chunks) == k
    && (forall i :: 0 <= i < |chunks| ==> chunks[i] != [] && ByteLen(chunks[i]) <= limit)
    && (forall i :: 0 <= i < |chunks| - 1 ==> Overflows(chunks[i], chunks[i + 1], limit))
  }

  /** The first code point of `next` does not fit after `chunk`. */
  predicate Overflows(chunk: string, next: string, limit: int)
  {
    next != [] && ByteLen(chunk) + RuneLen(next[0]) > limit
  }

  /** splitUTF8ByByteLimit: a builder `b` of `n` bytes collects code points;
      it is sealed when the next code point would overflow it. */
  method SplitUtf8ByByteLimit(s: string, limit: int) returns (res: seq<string>)
    ensures res == Split(s, limit)
  {
    res := [];
    var b: string := [];
    var n := 0;
    SplitStart(s, limit);
    for i := 0 to |s|
      invariant n == ByteLen(b)
      invariant b != [] ==> n <= limit
      invariant SplitSoFar(s, limit, i, res, b)
    {
      var r := s[i];
      var l := RuneLen(r);
      if l > limit {
        SplitDrop(s, limit, i, res, b);
        continue;
      }
      if n + l > limit {
        SplitSeal(s, limit, i, res, b);
        res := res + [b];
        b := [];
        n := 0;
      }
      SplitAppend(s, limit, i, res, b);
      b := b + [r];
      n := n + l;
    }
    SplitEnd(s, limit, res, b);
    if n > 0 {
      res := res + [b];
    }
    if |res| == 0 {
      res := [""];
    }
  }

  /** The loop invariant of SplitUtf8ByByteLimit after `i` code points: the
      chunks sealed so far, followed by the greedy chunks of the builder's
      content and what is still to be kept, are the greedy chunks of the input. */
  predicate SplitSoFar(s: string, limit: int, i: nat, res: seq<string>, b: string)
    requires i <= |s|
  {
    Greedy(Keep(s, limit), limit) == res + Greedy(b + Keep(s[i..], limit), limit)
  }

  lemma SplitStart(s: string, limit: int)
    ensures SplitSoFar(s, limit, 0, [], [])
  {
    assert s[0..] == s && [] + Keep(s, limit) == Keep(s, limit);
  }

  /** A code point too long for any chunk is skipped. */
  lemma SplitDrop(s: string, limit: int, i: nat, res: seq<string>, b: string)
    requires i < |s| && RuneLen(s[i]) > limit && SplitSoFar(s, limit, i, res, b)
    ensures SplitSoFar(s, limit, i + 1, res, b)
  {
    KeepFrom(s, i, limit);
    assert Keep(s[i..], limit) == Keep(s[i + 1..], limit);
  }

  /** A builder that the next code point would overflow is sealed. */
  lemma SplitSeal(s: string, limit: int, i: nat, res: seq<string>, b: string)
    requires i < |s| && RuneLen(s[i]) <= limit && SplitSoFar(s, limit, i, res, b)
    requires b != [] ==> ByteLen(b) <= limit
    requires ByteLen(b) + RuneLen(s[i]) > limit
    ensures b != [] && SplitSoFar(s, limit, i, res + [b], [])
  {
    var r, rest := s[i], Keep(s[i + 1..], limit);
    assert b != [] by {
      assert ByteLen([]) == 0;
    }
    assert Keep(s[i..], limit) == [r] + rest by {
      KeepFrom(s, i, limit);
    }
    assert Greedy(b + ([r] + rest), limit) == [b] + Greedy([r] + rest, limit) by {
      GreedyCut(b, r, rest, limit);
    }
    assert [] + Keep(s[i..], limit) == [r] + rest;
    assert res + ([b] + Greedy([r] + rest, limit)) == (res + [b]) + Greedy([r] + rest, limit);
  }

  /** A code point that fits goes into the builder. */
  lemma SplitAppend(s: string, limit: int, i: nat, res: seq<string>, b: string)
    requires i < |s| && RuneLen(s[i]) <= limit && SplitSoFar(s, limit, i, res, b)
    ensures SplitSoFar(s, limit, i + 1, res, b + [s[i]])
    ensures ByteLen(b + [s[i]]) == ByteLen(b) + RuneLen(s[i])
  {
    KeepFrom(s, i, limit);
    assert b + Keep(s[i..], limit) == (b + [s[i]]) + Keep(s[i + 1..], limit);
    ByteLenAppend(b, [s[i]]);
  }

  /** After the last code point the builder, if not empty, is the last chunk. */
  lemma SplitEnd(s: string, limit: int, res: seq<string>, b: string)
    requires SplitSoFar(s, limit, |s|, res, b) && (b != [] ==> ByteLen(b) <= limit)
    ensures Greedy(Keep(s, limit), limit) == res + (if b == [] then [] else [b])
    ensures b == [] <==> ByteLen(b) == 0
  {
    assert s[|s|..] == [] && b + [] == b;
    GreedyWhole(b, limit);
    if b != [] {
      assert ByteLen(b) >= RuneLen(b[0]);
    }
  }

  lemma KeepFrom(s: string, i: nat, limit: int)
    requires i < |s|
    ensures Keep(s[i..], limit) == (if RuneLen(s[i]) <= limit then [s[i]] else []) + Keep(s[i + 1..], limit)
  {
    assert s[i..][0] == s[i] && s[i..][1..] == s[i + 1..];
  }

  lemma {:induction false} FitPrefix(b: string, r: char, rest: string, limit: int)
    requires limit >= 0
    requires ByteLen(b) <= limit < ByteLen(b) + RuneLen(r)
    ensures Fit(b + ([r] + rest), limit) == |b|
  {
    var k := b + ([r] + rest);
    if b == [] {
      assert k == [r] + rest;
    } else {
      assert k[0] == b[0] && k[1..] == b[1..] + ([r] + rest);
      FitPrefix(b[1..], r, rest, limit - RuneLen(b[0]));
    }
  }

  lemma {:induction false} FitWhole(b: string, limit: int)
    requires limit >= 0 && ByteLen(b) <= limit
    ensures Fit(b, limit) == |b|
  {
    if b != [] {
      FitWhole(b[1..], limit - RuneLen(b[0]));
    }
  }

  /** A chunk `b` that the code point `r` would overflow is sealed as it is. */
  lemma GreedyCut(b: string, r: char, rest: string, limit: int)
    requires b != [] && ByteLen(b) <= limit < ByteLen(b) + RuneLen(r)
    ensures Greedy(b + ([r] + rest), limit) == [b] + Greedy([r] + rest, limit)
  {
    var k := b + ([r] + rest);
    FitPrefix(b, r, rest, limit);
    assert k[..|b|] == b && k[|b|..] == [r] + rest;
  }

  /** A piece that fits as a whole is one chunk (none when it is empty). */
  lemma GreedyWhole(b: string, limit: int)
    requires b == [] || ByteLen(b) <= limit
    ensures Greedy(b, limit) == if b == [] then [] else [b]
  {
    if b != [] {
      FitWhole(b, limit);
      assert b[..|b|] == b && b[|b|..] == [];
    }
  }

  lemma ByteLenPrefix(k: string, n: nat)
    requires n < |k|
    ensures ByteLen(k[..n + 1]) == ByteLen(k[..n]) + RuneLen(k[n])
  {
    assert k[..n + 1] == k[..n] + [k[n]];
    ByteLenAppend(k[..n], [k[n]]);
  }

  /** The greedy chunks read back as what they cut. */
  lemma {:induction false} GreedyConcat(k: string, limit: int)
    ensures Concat(Greedy(k, limit)) == k
  {
    if k != [] {
      var n := if Fit(k, limit) == 0 then 1 else Fit(k, limit);
      GreedyConcat(k[n..], limit);
      assert Concat(Greedy(k, limit)) == k[..n] + Concat(Greedy(k[n..], limit));
      assert k[..n] + k[n..] == k;
    }
  }

  /** When every code point fits, each greedy chunk is the non-empty longest
      prefix that fits. */
  lemma GreedyHead(k: string, limit: int)
    requires k != [] && AllFit(k, limit)
    ensures var n := Fit(k, limit);
      && 1 <= n && Greedy(k, limit) == [k[..n]] + Greedy(k[n..], limit)
      && ByteLen(k[..n]) <= limit && (n < |k| ==> ByteLen(k[..n]) + RuneLen(k[n]) > limit)
  {
    var n := Fit(k, limit);
    assert RuneLen(k[0]) <= limit;
    FitLongest(k, limit);
    if n < |k| {
      ByteLenPrefix(k, n);
    }
  }

  /** The greedy chunks are non-empty and within the limit. */
  lemma {:induction false} GreedyChunksFit(k: string, limit: int)
    requires AllFit(k, limit)
    ensures forall i :: 0 <= i < |Greedy(k, limit)| ==>
      Greedy(k, limit)[i] != [] && ByteLen(Greedy(k, limit)[i]) <= limit
  {
    if k != [] {
      GreedyHead(k, limit);
      var n := Fit(k, limit);
      assert AllFit(k[n..], limit);
      GreedyChunksFit(k[n..], limit);
      var g, tail := Greedy(k, limit), Greedy(k[n..], limit);
      forall i | 0 <= i < |g| ensures g[i] != [] && ByteLen(g[i]) <= limit {
        if i > 0 {
          assert g[i] == tail[i - 1];
        }
      }
    }
  }

  /** Each greedy chunk is sealed only when the first code point of the next
      one would overflow it. */
  lemma {:induction false} GreedyMaximal(k: string, limit: int)
    requires AllFit(k, limit)
    ensures forall i :: 0 <= i < |Greedy(k, limit)| - 1 ==>
      Overflows(Greedy(k, limit)[i], Greedy(k, limit)[i + 1], limit)
  {
    if k != [] {
      var n := Fit(k, limit);
      var g, tail := Greedy(k, limit), Greedy(k[n..], limit);
      assert 1 <= n && g == [k[..n]] + tail && (n < |k| ==> ByteLen(k[..n]) + RuneLen(k[n]) > limit) by {
        GreedyHead(k, limit);
      }
      assert forall i :: 0 <= i < |tail| - 1 ==>
        Overflows(tail[i], tail[i + 1], limit) by {
        assert AllFit(k[n..], limit);
        GreedyMaximal(k[n..], limit);
      }
      assert tail != [] ==> tail[0] != [] && tail[0][0] == k[n] by {
        if tail != [] {
          assert k[n..] != [] && AllFit(k[n..], limit);
          GreedyHead(k[n..], limit);
        }
      }
      forall i | 0 <= i < |g| - 1
        ensures Overflows(g[i], g[i + 1], limit)
      {
        if i > 0 {
          assert g[i] == tail[i - 1] && g[i + 1] == tail[i];
        }
      }
    }
  }

  /** The greedy chunks are a greedy partition of what they cut. */
  lemma GreedyIsGreedyPartition(k: string, limit: int)
    requires AllFit(k, limit)
    ensures IsGreedyPartition(Greedy(k, limit), k, limit)
  {
    GreedyConcat(k, limit);
    GreedyChunksFit(k, limit);
    GreedyMaximal(k, limit);
  }

  /** The greedy partition is the only greedy partition: the properties above
      determine the chunks completely. */
  lemma {:induction false} GreedyPartitionUnique(chunks: seq<string>, k: string, limit: int)
    requires IsGreedyPartition(chunks, k, limit)
    ensures chunks == Greedy(k, limit)
  {
    if chunks != [] {
      var c, more := chunks[0], chunks[1..];
      var k' := Concat(more);
      assert k == c + k';
      assert IsGreedyPartition(more, k', limit) by {
        forall i | 0 <= i < |more| - 1
          ensures Overflows(more[i], more[i + 1], limit)
        {
          assert more[i] == chunks[i + 1] && more[i + 1] == chunks[i + 2];
        }
      }
      assert more == Greedy(k', limit) by {
        GreedyPartitionUnique(more, k', limit);
      }
      if more == [] {
        assert Greedy(k, limit) == [c] by {
          assert k' == [] && k == c;
          GreedyWhole(k, limit);
        }
      } else {
        var first := more[0];
        var rest := first[1..] + Concat(more[1..]);
        assert k' == [first[0]] + rest by {
          assert k' == first + Concat(more[1..]);
          assert first == [first[0]] + first[1..];
        }
        assert Greedy(c + ([first[0]] + rest), limit) == [c] + Greedy([first[0]] + rest, limit) by {
          assert ByteLen(c) + RuneLen(chunks[1][0]) > limit;
          GreedyCut(c, first[0], rest, limit);
        }
      }
    }
  }

  /** What splitUTF8ByByteLimit promises: at least one chunk, the sole empty
      chunk exactly when no code point is kept, otherwise non-empty chunks of at
      most `limit` bytes that read back as the kept code points in order, each
      sealed only when the next code point would not fit. */
  lemma SplitProperties(s: string, limit: int)
    ensures var chunks := Split(s, limit);
      && |chunks| >= 1
      && (chunks == [""] <==> Keep(s, limit) == [])
      && Concat(chunks) == Keep(s, limit)
      && (chunks != [""] ==> IsGreedyPartition(chunks, Keep(s, limit), limit))
  {
    var k := Keep(s, limit);
    KeepFits(s, limit);
    GreedyIsGreedyPartition(k, limit);
    var g := Greedy(k, limit);
    if g == [] {
      assert Concat([""]) == "";
    } else {
      assert g[0] != [];
    }
  }

  /** Each chunk, once encoded, fits in `limit` bytes; the encodings of the
      chunks, in order, are the encoding of the kept code points: no code point
      is cut between two records. */
  lemma {:induction false} ChunkEncodings(chunks: seq<string>, k: string, limit: int)
    requires IsGreedyPartition(chunks, k, limit)
    ensures forall i :: 0 <= i < |chunks| ==> |Encode(chunks[i])| <= limit
    ensures Encode(k) == EncodeAll(chunks)
  {
    forall i | 0 <= i < |chunks| ensures |Encode(chunks[i])| <= limit {
      EncodeLength(chunks[i]);
    }
    if chunks != [] {
      var more := chunks[1..];
      assert IsGreedyPartition(more, Concat(more), limit) by {
        forall i | 0 <= i < |more| - 1
          ensures Overflows(more[i], more[i + 1], limit)
        {
          assert more[i] == chunks[i + 1] && more[i + 1] == chunks[i + 2];
        }
      }
      ChunkEncodings(more, Concat(more), limit);
      EncodeAppend(chunks[0], Concat(more));
    }
  }

  /** The bytes of all chunks, one after the other. */
  function EncodeAll(chunks: seq<string>): seq<byte>
  {
    if chunks == [] then [] else Encode(chunks[0]) + EncodeAll(chunks[1..])
  }

  /** Every code point that is kept fits in a chunk. */
  lemma {:induction false} KeepFits(s: string, limit: int)
    ensures AllFit(Keep(s, limit), limit)
  {
    if s != [] {
      KeepFits(s[1..], limit);
    }
  }

  /** Nothing is dropped when every code point fits. */
  lemma {:induction false} KeepAllFit(s: string, limit: int)
    requires AllFit(s, limit)
    ensures Keep(s, limit) == s
  {
    if s != [] {
      KeepAllFit(s[1..], limit);
      assert [s[0]] + s[1..] == s;
    }
  }

  /** Dropping oversize code points works piece by piece: what is kept of a
      concatenation is what is kept of each part, in order. */
  lemma {:induction false} KeepAppend(a: string, b: string, limit: int)
    ensures Keep(a + b, limit) == Keep(a, limit) + Keep(b, limit)
  {
    if a == [] {
      assert a + b == b;
    } else {
      var head := if RuneLen(a[0]) <= limit then [a[0]] else [];
      assert Keep(a + b, limit) == head + Keep(a[1..] + b, limit) by {
        assert (a + b)[0] == a[0] && (a + b)[1..] == a[1..] + b;
      }
      KeepAppend(a[1..], b, limit);
      assert head + (Keep(a[1..], limit) + Keep(b, limit)) == head + Keep(a[1..], limit) + Keep(b, limit);
    }
  }

  /** `n` copies of `c`. */
  function Repeat(c: char, n: nat): (s: string)
    ensures |s| == n && forall j :: 0 <= j < n ==> s[j] == c
  {
    seq(n, _ => c)
  }

  lemma {:induction false} FitRepeat(c: char, n: nat, limit: int)
    requires RuneLen(c) == 1 && limit >= 0
    ensures Fit(Repeat(c, n), limit) == if n <= limit then n else limit
  {
    if n > 0 && limit > 0 {
      assert Repeat(c, n)[1..] == Repeat(c, n - 1);
      FitRepeat(c, n - 1, limit - 1);
    }
  }

  /** A run of one-byte code points is cut into full chunks of `limit` bytes
      and a last chunk with what remains. */
  lemma GreedyRepeat(c: char, n: nat, limit: int)
    requires RuneLen(c) == 1 && limit >= 1
    ensures Greedy(Repeat(c, n), limit) ==
      if n == 0 then []
      else if n <= limit then [Repeat(c, n)]
      else [Repeat(c, limit)] + Greedy(Repeat(c, n - limit), limit)
  {
    if n > 0 {
      FitRepeat(c, n, limit);
      if n <= limit {
        assert Repeat(c, n)[..n] == Repeat(c, n) && Repeat(c, n)[n..] == [];
      } else {
        assert Repeat(c, n)[..limit] == Repeat(c, limit);
        assert Repeat(c, n)[limit..] == Repeat(c, n - limit);
      }
    }
  }

  /** Between two and three limits' worth of one-byte code points make two
      full chunks and a partial one. */
  lemma ThreeChunks(c: char, n: nat, limit: int)
    requires RuneLen(c) == 1 && limit >= 1 && 2 * limit < n <= 3 * limit
    ensures Split(Repeat(c, n), limit) == [Repeat(c, limit), Repeat(c, limit), Repeat(c, n - 2 * limit)]
  {
    assert Keep(Repeat(c, n), limit) == Repeat(c, n) by {
      KeepAllFit(Repeat(c, n), limit);
    }
    GreedyThree(c, n, limit);
  }

  lemma GreedyThree(c: char, n: nat, limit: int)
    requires RuneLen(c) == 1 && limit >= 1 && 2 * limit < n <= 3 * limit
    ensures Greedy(Repeat(c, n), limit) == [Repeat(c, limit), Repeat(c, limit), Repeat(c, n - 2 * limit)]
  {
    var full, last := Repeat(c, limit), Repeat(c, n - 2 * limit);
    assert Greedy(Repeat(c, n - 2 * limit), limit) == [last] by {
      GreedyRepeat(c, n - 2 * limit, limit);
    }
    assert Greedy(Repeat(c, n - limit), limit) == [full] + [last] by {
      GreedyRepeat(c, n - limit, limit);
      assert n - limit - limit == n - 2 * limit;
    }
    assert Greedy(Repeat(c, n), limit) == [full] + ([full] + [last]) by {
      GreedyRepeat(c, n, limit);
    }
  }

  /** Five hundred ASCII letters at a 200-byte limit make three chunks of
      200, 200 and 100 bytes. */
  lemma FiveHundredLetters()
    ensures Split(Repeat('a', 500), 200) == [Repeat('a', 200), Repeat('a', 200), Repeat('a', 100)]
  {
    ThreeChunks('a', 500, 200);
  }
}
