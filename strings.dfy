/// The two byte-string operations of Go's `strings` package that the decoder
/// relies on: TrimSuffix with a one-byte suffix, and TrimSpace over ASCII
/// whitespace.
module Strings {
  import opened Utf8

  /** ASCII whitespace as strings.TrimSpace sees it: '\t', '\n', '\v', '\f', '\r', ' '. */
  predicate IsSpace(b: byte) { b == 0x20 || 0x09 <= b <= 0x0D }

  /** Concatenation is associative. */
  lemma Associative<T>(a: seq<T>, b: seq<T>, c: seq<T>)
    ensures a + b + c == a + (b + c)
  {
  }

  /** Where the parts of `x`, a separator and `rest` sit in their concatenation. */
  lemma Around<T>(x: seq<T>, sep: T, rest: seq<T>)
    ensures (x + ([sep] + rest))[..|x|] == x
    ensures (x + ([sep] + rest))[|x|] == sep
    ensures (x + ([sep] + rest))[|x| + 1..] == rest
  {
  }

  /** The same for a separator of two elements. */
  lemma AroundPair<T>(x: seq<T>, sep0: T, sep1: T, rest: seq<T>)
    ensures (x + ([sep0, sep1] + rest))[..|x|] == x
    ensures (x + ([sep0, sep1] + rest))[|x|] == sep0 && (x + ([sep0, sep1] + rest))[|x| + 1] == sep1
    ensures (x + ([sep0, sep1] + rest))[|x| + 2..] == rest
  {
  }

  /** Removes one trailing `suffix` byte, if there is one. */
  function TrimSuffix(s: seq<byte>, suffix: byte): (r: seq<byte>)
    ensures |s| > 0 && s[|s| - 1] == suffix ==> s == r + [suffix]
    ensures !(|s| > 0 && s[|s| - 1] == suffix) ==> r == s
  {
    if |s| > 0 && s[|s| - 1] == suffix then s[..|s| - 1] else s
  }

  /** Length of the run of whitespace that `s` starts with. */
  function LeadingSpaces(s: seq<byte>): (n: nat)
    ensures n <= |s|
    ensures forall k :: 0 <= k < n ==> IsSpace(s[k])
    ensures n < |s| ==> !IsSpace(s[n])
  {
    if s == [] || !IsSpace(s[0]) then 0 else 1 + LeadingSpaces(s[1..])
  }

  /** Length of the run of whitespace that `s` ends with. */
  function TrailingSpaces(s: seq<byte>): (n: nat)
    ensures n <= |s|
    ensures forall k :: |s| - n <= k < |s| ==> IsSpace(s[k])
    ensures n < |s| ==> !IsSpace(s[|s| - 1 - n])
  {
    if s == [] || !IsSpace(s[|s| - 1]) then 0 else 1 + TrailingSpaces(s[..|s| - 1])
  }

  /** `s` without its leading and trailing whitespace: the longest slice of `s`
      that neither starts nor ends with a space and has only whitespace around it. */
  function TrimSpace(s: seq<byte>): (r: seq<byte>)
    ensures r != [] ==> !IsSpace(r[0]) && !IsSpace(r[|r| - 1])
    ensures LeadingSpaces(s) + |r| <= |s|
    ensures r == s[LeadingSpaces(s)..LeadingSpaces(s) + |r|]
    ensures forall k :: LeadingSpaces(s) + |r| <= k < |s| ==> IsSpace(s[k])
  {
    var rest := s[LeadingSpaces(s)..];
    rest[..|rest| - TrailingSpaces(rest)]
  }

  /** Trimming changes nothing when there is nothing to trim. */
  lemma TrimSpaceUnchanged(s: seq<byte>)
    requires s != [] ==> !IsSpace(s[0]) && !IsSpace(s[|s| - 1])
    ensures TrimSpace(s) == s
  {
    if s != [] {
      assert LeadingSpaces(s) == 0;
      assert TrailingSpaces(s) == 0;
    }
  }

  /** Trimming twice is trimming once. */
  lemma TrimSpaceIdempotent(s: seq<byte>)
    ensures TrimSpace(TrimSpace(s)) == TrimSpace(s)
  {
    TrimSpaceUnchanged(TrimSpace(s));
  }

  /** Only an all-whitespace input trims to nothing. */
  lemma TrimSpaceEmpty(s: seq<byte>)
    ensures TrimSpace(s) == [] <==> forall k :: 0 <= k < |s| ==> IsSpace(s[k])
  {
    if TrimSpace(s) != [] {
      var k := LeadingSpaces(s);
      assert !IsSpace(s[k]);
    }
  }
}
