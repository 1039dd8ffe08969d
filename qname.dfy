/// Decoding of a query name into a prompt (decodeQName in textutil.go).
///
/// The name arrives in the presentation form of section 5.1 of RFC 1035: labels
/// separated by dots, a final dot for the root, `\X` quoting the byte X and
/// `\DDD` standing for the byte with decimal value DDD.  The decoder undoes the
/// escapes, turns every separator dot into a space and trims the result.
module QName {
  import opened Utf8
  import Strings

  const Dot: byte := 0x2E
  const Backslash: byte := 0x5C
  const Space: byte := 0x20
  /** The control byte that a Go literal "\032" (octal) produces; decoded as a space. */
  const Substitute: byte := 0x1A

  predicate IsDigit(b: byte) { 0x30 <= b <= 0x39 }

  /** The decimal value of three digit bytes. */
  function DigitsValue(d1: byte, d2: byte, d3: byte): int
    requires IsDigit(d1) && IsDigit(d2) && IsDigit(d3)
  {
    (d1 as int - 0x30) * 100 + (d2 as int - 0x30) * 10 + (d3 as int - 0x30)
  }

  /** The bytes from `i` on start with a `\DDD` escape whose value fits in a byte. */
  predicate DddAt(q: seq<byte>, i: nat)
  {
    i + 3 < |q| && q[i] == Backslash && IsDigit(q[i + 1]) && IsDigit(q[i + 2]) && IsDigit(q[i + 3])
    && DigitsValue(q[i + 1], q[i + 2], q[i + 3]) <= 255
  }

  /** The bytes that the escaped text `q` stands for, read from the front: a
      0x1A byte or a separator dot gives a space, `\DDD` gives one byte and is
      never read again, a backslash before any other byte gives that byte, and a
      lone backslash at the very end stays a backslash. */
  function Unescape(q: seq<byte>): (r: seq<byte>)
    ensures |r| <= |q|
  {
    if q == [] then []
    else if q[0] == Substitute then [Space] + Unescape(q[1..])
    else if DddAt(q, 0) then [DigitsValue(q[1], q[2], q[3])] + Unescape(q[4..])
    else if q[0] == Backslash && |q| >= 2 then [q[1]] + Unescape(q[2..])
    else if q[0] == Dot then [Space] + Unescape(q[1..])
    else [q[0]] + Unescape(q[1..])
  }

  /** The prompt a query name stands for: the root dot dropped, the rest
      unescaped, surrounding whitespace trimmed. */
  function Decoded(qname: seq<byte>): (prompt: seq<byte>)
    ensures |prompt| <= |qname|
    ensures qname != [] && qname[|qname| - 1] == Dot ==> |prompt| < |qname|
    ensures prompt != [] ==> !Strings.IsSpace(prompt[0]) && !Strings.IsSpace(prompt[|prompt| - 1])
  {
    Strings.TrimSpace(Unescape(Strings.TrimSuffix(qname, Dot)))
  }

  /** How the suffix of `q` from `i` splits into its first bytes and the rest. */
  lemma Suffixes(q: seq<byte>, i: nat)
    requires i < |q|
    ensures q[i..][0] == q[i] && q[i..][1..] == q[i + 1..]
    ensures i + 2 <= |q| ==> q[i..][1] == q[i + 1] && q[i..][2..] == q[i + 2..]
    ensures i + 4 <= |q| ==> q[i..][2] == q[i + 2] && q[i..][3] == q[i + 3] && q[i..][4..] == q[i + 4..]
  {
  }

  /** The decoding loop's invariant: `b`, the bytes emitted for `q[..i]`,
      followed by what the rest stands for, is what all of `q` stands for. */
  predicate Scanned(q: seq<byte>, i: nat, b: seq<byte>)
    requires i <= |q|
  {
    b + Unescape(q[i..]) == Unescape(q)
  }

  lemma ScanStart(q: seq<byte>)
    ensures Scanned(q, 0, [])
  {
    assert q[0..] == q && [] + Unescape(q) == Unescape(q);
  }

  /** The escape at `i` stands for `x` and ends before `j`. */
  lemma ScanEmit(q: seq<byte>, i: nat, j: nat, b: seq<byte>, x: byte)
    requires i < j <= |q| && Scanned(q, i, b)
    requires Unescape(q[i..]) == [x] + Unescape(q[j..])
    ensures Scanned(q, j, b + [x])
  {
  }

  /** A one-byte escape at `i`: 0x1A and a separator dot give a space, any
      other byte but a backslash before more bytes gives itself. */
  lemma ScanSingle(q: seq<byte>, i: nat, b: seq<byte>)
    requires i < |q| && (q[i] != Backslash || i + 1 == |q|) && Scanned(q, i, b)
    ensures Scanned(q, i + 1, b + [if q[i] == Substitute || q[i] == Dot then Space else q[i]])
  {
    assert Unescape(q[i..]) == [if q[i] == Substitute || q[i] == Dot then Space else q[i]] + Unescape(q[i + 1..]) by {
      Suffixes(q, i);
    }
    ScanEmit(q, i, i + 1, b, if q[i] == Substitute || q[i] == Dot then Space else q[i]);
  }

  /** A `\DDD` escape at `i` whose value fits in a byte. */
  lemma ScanDdd(q: seq<byte>, i: nat, b: seq<byte>)
    requires DddAt(q, i) && Scanned(q, i, b)
    ensures Scanned(q, i + 4, b + [DigitsValue(q[i + 1], q[i + 2], q[i + 3])])
  {
    assert Unescape(q[i..]) == [DigitsValue(q[i + 1], q[i + 2], q[i + 3])] + Unescape(q[i + 4..]) by {
      Suffixes(q, i);
    }
    ScanEmit(q, i, i + 4, b, DigitsValue(q[i + 1], q[i + 2], q[i + 3]));
  }

  /** A backslash at `i` that does not start a `\DDD` escape quotes the next byte. */
  lemma ScanQuoted(q: seq<byte>, i: nat, b: seq<byte>)
    requires i + 1 < |q| && q[i] == Backslash && !DddAt(q, i) && Scanned(q, i, b)
    ensures Scanned(q, i + 2, b + [q[i + 1]])
  {
    assert Unescape(q[i..]) == [q[i + 1]] + Unescape(q[i + 2..]) by {
      Suffixes(q, i);
    }
    ScanEmit(q, i, i + 2, b, q[i + 1]);
  }

  lemma ScanEnd(q: seq<byte>, b: seq<byte>)
    requires Scanned(q, |q|, b)
    ensures b == Unescape(q)
  {
    assert q[|q|..] == [] && b + [] == b;
  }

  /** decodeQName: the root dot dropped, then one pass over the bytes with an
      index that skips the three digits of a `\DDD` escape or the byte after a
      backslash, then the result trimmed. */
  method DecodeQName(qname: seq<byte>) returns (prompt: seq<byte>)
    ensures prompt == Decoded(qname)
  {
    var q := Strings.TrimSuffix(qname, Dot);
    var b: seq<byte> := [];
    var i := 0;
    ScanStart(q);
    while i < |q|
      invariant 0 <= i <= |q|
      invariant Scanned(q, i, b)
    {
      var ch := q[i];
      if ch == Substitute {
        ScanSingle(q, i, b);
        b := b + [Space];
      } else if DddAt(q, i) {
        var v := DigitsValue(q[i + 1], q[i + 2], q[i + 3]);
        ScanDdd(q, i, b);
        b := b + [v];
        i := i + 3;
      } else if ch == Backslash && i + 1 < |q| {
        ScanQuoted(q, i, b);
        i := i + 1;
        b := b + [q[i]];
      } else if ch == Dot {
        ScanSingle(q, i, b);
        b := b + [Space];
      } else {
        ScanSingle(q, i, b);
        b := b + [ch];
      }
      i := i + 1;
    }
    ScanEnd(q, b);
    prompt := Strings.TrimSpace(b);
  }

  /** Without a backslash there are no escapes: every separator dot and every
      0x1A byte becomes one space and every other byte is copied unchanged. */
  lemma {:induction false} UnescapeWithoutBackslash(q: seq<byte>)
    requires forall k :: 0 <= k < |q| ==> q[k] != Backslash
    ensures |Unescape(q)| == |q|
    ensures forall k :: 0 <= k < |q| ==>
      Unescape(q)[k] == if q[k] == Dot || q[k] == Substitute then Space else q[k]
  {
    if q != [] {
      UnescapeWithoutBackslash(q[1..]);
    }
  }

  /** The `\DDD` form of a byte: a backslash and three decimal digits. */
  function Ddd(b: byte): seq<byte>
  {
    [Backslash, 0x30 + b / 100, 0x30 + (b / 10) % 10, 0x30 + b % 10]
  }

  /** The presentation form of one byte of a label (section 5.1 of RFC 1035):
      `\X` for a dot or a backslash, `\DDD` for a byte that is not a printable
      ASCII character (0x1A and the space included), the byte itself otherwise. */
  function EscapeByte(b: byte): seq<byte>
  {
    if b == Dot || b == Backslash then [Backslash, b]
    else if b < 0x21 || b > 0x7E then Ddd(b)
    else [b]
  }

  function EscapeLabel(l: seq<byte>): seq<byte>
  {
    if l == [] then [] else EscapeByte(l[0]) + EscapeLabel(l[1..])
  }

  /** Escaped labels separated by dots. */
  function EscapeLabels(labels: seq<seq<byte>>): seq<byte>
  {
    if labels == [] then []
    else if |labels| == 1 then EscapeLabel(labels[0])
    else EscapeLabel(labels[0]) + [Dot] + EscapeLabels(labels[1..])
  }

  /** A fully qualified name in presentation form: the labels, then the root dot. */
  function PresentName(labels: seq<seq<byte>>): seq<byte>
  {
    EscapeLabels(labels) + [Dot]
  }

  /** Labels separated by single spaces. */
  function JoinWithSpaces(labels: seq<seq<byte>>): seq<byte>
  {
    if labels == [] then []
    else if |labels| == 1 then labels[0]
    else labels[0] + [Space] + JoinWithSpaces(labels[1..])
  }

  /** A `\DDD` escape yields exactly the byte DDD and consumes four bytes,
      for every byte value; what it yields is never read again, so `\046`
      gives a dot and not a separator, and `\049\050\051` gives "123". */
  lemma UnescapeDdd(b: byte, rest: seq<byte>)
    ensures Unescape(Ddd(b) + rest) == [b] + Unescape(rest)
  {
    var q := Ddd(b) + rest;
    assert DddAt(q, 0) && DigitsValue(q[1], q[2], q[3]) == b;
    assert q[4..] == rest;
  }

  /** `\X` with X not a digit yields X, whatever X is (a dot, a backslash, 0x1A). */
  lemma UnescapeQuoted(x: byte, rest: seq<byte>)
    requires !IsDigit(x)
    ensures Unescape([Backslash, x] + rest) == [x] + Unescape(rest)
  {
    assert ([Backslash, x] + rest)[2..] == rest;
  }

  /** A backslash before three digits whose value exceeds 255 only quotes the
      first digit: `\256` yields "256". */
  lemma UnescapeOutOfRange(d1: byte, d2: byte, d3: byte, rest: seq<byte>)
    requires IsDigit(d1) && IsDigit(d2) && IsDigit(d3) && DigitsValue(d1, d2, d3) > 255
    ensures Unescape([Backslash, d1, d2, d3] + rest) == [d1, d2, d3] + Unescape(rest)
  {
    var q := [Backslash, d1, d2, d3] + rest;
    calc {
      Unescape(q);
      { assert !DddAt(q, 0) && q[2..] == [d2] + ([d3] + rest); }
      [d1] + Unescape([d2] + ([d3] + rest));
      { assert ([d2] + ([d3] + rest))[1..] == [d3] + rest; }
      [d1] + ([d2] + Unescape([d3] + rest));
      { assert ([d3] + rest)[1..] == rest; }
      [d1] + ([d2] + ([d3] + Unescape(rest)));
      [d1, d2, d3] + Unescape(rest);
    }
  }

  /** A byte that is neither a backslash, a dot nor 0x1A stands for itself. */
  predicate IsPlain(b: byte) { b != Backslash && b != Dot && b != Substitute }

  lemma {:induction false} UnescapePlain(p: seq<byte>, rest: seq<byte>)
    requires forall k :: 0 <= k < |p| ==> IsPlain(p[k])
    ensures Unescape(p + rest) == p + Unescape(rest)
  {
    if p == [] {
      assert p + rest == rest;
    } else {
      assert (p + rest)[0] == p[0] && (p + rest)[1..] == p[1..] + rest;
      UnescapePlain(p[1..], rest);
    }
  }

  /** A backslash with fewer than three bytes after it quotes the next byte,
      whatever that byte is, and one at the very end stays a backslash: `\12`
      yields "12", `\..` yields ". ", and a trailing `\` yields `\`. */
  lemma UnescapeShortTail(t: seq<byte>)
    requires |t| <= 2
    ensures Unescape([Backslash] + t) == if t == [] then [Backslash] else [t[0]] + Unescape(t[1..])
  {
    var u := [Backslash] + t;
    if t == [] {
      assert u == [Backslash] && u[1..] == [];
    } else {
      assert !DddAt(u, 0);
      assert u[1] == t[0] && u[2..] == t[1..];
    }
  }

  /** The root name and the empty name both decode to the empty prompt. */
  lemma DecodeRoot()
    ensures Decoded([]) == [] && Decoded([Dot]) == []
  {
    assert Strings.TrimSuffix([Dot], Dot) == [];
  }

  /** An escaped byte of a label reads back as that byte, whatever follows it. */
  lemma UnescapeByte(b: byte, rest: seq<byte>)
    ensures Unescape(EscapeByte(b) + rest) == [b] + Unescape(rest)
  {
    if b == Dot || b == Backslash {
      UnescapeQuoted(b, rest);
    } else if b < 0x21 || b > 0x7E {
      UnescapeDdd(b, rest);
    } else {
      assert (EscapeByte(b) + rest)[1..] == rest;
    }
  }

  lemma {:induction false} UnescapeLabel(l: seq<byte>, rest: seq<byte>)
    ensures Unescape(EscapeLabel(l) + rest) == l + Unescape(rest)
  {
    if l == [] {
      assert EscapeLabel(l) + rest == rest;
    } else {
      calc {
        Unescape(EscapeLabel(l) + rest);
        { Strings.Associative(EscapeByte(l[0]), EscapeLabel(l[1..]), rest); }
        Unescape(EscapeByte(l[0]) + (EscapeLabel(l[1..]) + rest));
        { UnescapeByte(l[0], EscapeLabel(l[1..]) + rest); }
        [l[0]] + Unescape(EscapeLabel(l[1..]) + rest);
        { UnescapeLabel(l[1..], rest); }
        [l[0]] + (l[1..] + Unescape(rest));
        { assert [l[0]] + l[1..] == l; }
        l + Unescape(rest);
      }
    }
  }

  lemma {:induction false} UnescapeLabels(labels: seq<seq<byte>>)
    ensures Unescape(EscapeLabels(labels)) == JoinWithSpaces(labels)
  {
    if |labels| == 1 {
      UnescapeLabel(labels[0], []);
      assert EscapeLabel(labels[0]) + [] == EscapeLabel(labels[0]);
      assert labels[0] + [] == labels[0];
    } else if |labels| > 1 {
      var tail := EscapeLabels(labels[1..]);
      calc {
        Unescape(EscapeLabels(labels));
        { assert EscapeLabels(labels) == EscapeLabel(labels[0]) + ([Dot] + tail); }
        Unescape(EscapeLabel(labels[0]) + ([Dot] + tail));
        { UnescapeLabel(labels[0], [Dot] + tail); }
        labels[0] + Unescape([Dot] + tail);
        { assert ([Dot] + tail)[1..] == tail; }
        labels[0] + ([Space] + Unescape(tail));
        { UnescapeLabels(labels[1..]); }
        labels[0] + [Space] + JoinWithSpaces(labels[1..]);
      }
    }
  }

  /** Any name written in presentation form decodes to its labels joined by
      spaces (trimmed); the root name "." decodes to the empty prompt. */
  lemma DecodePresentName(labels: seq<seq<byte>>)
    ensures Decoded(PresentName(labels)) == Strings.TrimSpace(JoinWithSpaces(labels))
  {
    assert Strings.TrimSuffix(PresentName(labels), Dot) == EscapeLabels(labels);
    UnescapeLabels(labels);
  }

  /** A name whose unescaped labels have nothing to trim decodes, once its
      root dot is added, to exactly those unescaped bytes. */
  lemma DecodedRooted(q: seq<byte>)
    requires var u := Unescape(q); u != [] ==> !Strings.IsSpace(u[0]) && !Strings.IsSpace(u[|u| - 1])
    ensures Decoded(q + [Dot]) == Unescape(q)
  {
    var n := q + [Dot];
    assert n[|n| - 1] == Dot && n[..|n| - 1] == q;
    assert Strings.TrimSuffix(n, Dot) == q;
    Strings.TrimSpaceUnchanged(Unescape(q));
  }

  /** The labels of "hello.world.": the separator dot becomes a space. */
  lemma UnescapeHelloWorld()
    ensures Unescape([0x68, 0x65, 0x6C, 0x6C, 0x6F] + ([Dot] + [0x77, 0x6F, 0x72, 0x6C, 0x64]))
         == [0x68, 0x65, 0x6C, 0x6C, 0x6F, 0x20, 0x77, 0x6F, 0x72, 0x6C, 0x64]
  {
    var hello: seq<byte> := [0x68, 0x65, 0x6C, 0x6C, 0x6F];
    var world: seq<byte> := [0x77, 0x6F, 0x72, 0x6C, 0x64];
    UnescapePlain(world, []);
    assert ([Dot] + world)[1..] == world + [];
    UnescapePlain(hello, [Dot] + world);
  }

  /** The labels of "what\032is\032up.": `\032` is a space. */
  lemma UnescapeWhatIsUp()
    ensures Unescape([0x77, 0x68, 0x61, 0x74] + (Ddd(Space) + ([0x69, 0x73] + (Ddd(Space) + [0x75, 0x70]))))
         == [0x77, 0x68, 0x61, 0x74, 0x20, 0x69, 0x73, 0x20, 0x75, 0x70]
  {
    var what: seq<byte> := [0x77, 0x68, 0x61, 0x74];
    var verb: seq<byte> := [0x69, 0x73];
    var up: seq<byte> := [0x75, 0x70];
    UnescapePlain(up, []);
    assert up + [] == up;
    UnescapeDdd(Space, up);
    UnescapePlain(verb, Ddd(Space) + up);
    UnescapeDdd(Space, verb + (Ddd(Space) + up));
    UnescapePlain(what, Ddd(Space) + (verb + (Ddd(Space) + up)));
  }

  /** The label of "slash\046dot.": `\046` is a dot, not a separator. */
  lemma UnescapeSlashDot()
    ensures Unescape([0x73, 0x6C, 0x61, 0x73, 0x68] + (Ddd(Dot) + [0x64, 0x6F, 0x74]))
         == [0x73, 0x6C, 0x61, 0x73, 0x68, 0x2E, 0x64, 0x6F, 0x74]
  {
    var slash: seq<byte> := [0x73, 0x6C, 0x61, 0x73, 0x68];
    var dot: seq<byte> := [0x64, 0x6F, 0x74];
    UnescapePlain(dot, []);
    assert dot + [] == dot;
    UnescapeDdd(Dot, dot);
    UnescapePlain(slash, Ddd(Dot) + dot);
  }

  /** The label of "octal\049\050\051.": the escapes are decimal. */
  lemma UnescapeOctal()
    ensures Unescape([0x6F, 0x63, 0x74, 0x61, 0x6C] + (Ddd(0x31) + (Ddd(0x32) + Ddd(0x33))))
         == [0x6F, 0x63, 0x74, 0x61, 0x6C, 0x31, 0x32, 0x33]
  {
    var octal: seq<byte> := [0x6F, 0x63, 0x74, 0x61, 0x6C];
    UnescapeDdd(0x33, []);
    assert Ddd(0x33) + [] == Ddd(0x33);
    UnescapeDdd(0x32, Ddd(0x33));
    UnescapeDdd(0x31, Ddd(0x32) + Ddd(0x33));
    UnescapePlain(octal, Ddd(0x31) + (Ddd(0x32) + Ddd(0x33)));
  }

  /** A case of TestDecodeQName (textutil_test.go), byte for byte: "hello.world." asks "hello world". */
  lemma DecodeHelloWorld()
    ensures Decoded([0x68, 0x65, 0x6C, 0x6C, 0x6F, 0x2E, 0x77, 0x6F, 0x72, 0x6C, 0x64, 0x2E])
         == [0x68, 0x65, 0x6C, 0x6C, 0x6F, 0x20, 0x77, 0x6F, 0x72, 0x6C, 0x64]
  {
    var q := [0x68, 0x65, 0x6C, 0x6C, 0x6F] + ([Dot] + [0x77, 0x6F, 0x72, 0x6C, 0x64]);
    assert q + [Dot] == [0x68, 0x65, 0x6C, 0x6C, 0x6F, 0x2E, 0x77, 0x6F, 0x72, 0x6C, 0x64, 0x2E];
    UnescapeHelloWorld();
    DecodedRooted(q);
  }

  /** "what\032is\032up." asks "what is up". */
  lemma DecodeWhatIsUp()
    ensures Decoded([0x77, 0x68, 0x61, 0x74, 0x5C, 0x30, 0x33, 0x32, 0x69, 0x73, 0x5C, 0x30, 0x33, 0x32, 0x75, 0x70, 0x2E])
         == [0x77, 0x68, 0x61, 0x74, 0x20, 0x69, 0x73, 0x20, 0x75, 0x70]
  {
    var q := [0x77, 0x68, 0x61, 0x74] + (Ddd(Space) + ([0x69, 0x73] + (Ddd(Space) + [0x75, 0x70])));
    assert q + [Dot] == [0x77, 0x68, 0x61, 0x74, 0x5C, 0x30, 0x33, 0x32, 0x69, 0x73, 0x5C, 0x30, 0x33, 0x32, 0x75, 0x70, 0x2E];
    UnescapeWhatIsUp();
    DecodedRooted(q);
  }

  /** "slash\046dot." asks "slash.dot". */
  lemma DecodeSlashDot()
    ensures Decoded([0x73, 0x6C, 0x61, 0x73, 0x68, 0x5C, 0x30, 0x34, 0x36, 0x64, 0x6F, 0x74, 0x2E])
         == [0x73, 0x6C, 0x61, 0x73, 0x68, 0x2E, 0x64, 0x6F, 0x74]
  {
    var q := [0x73, 0x6C, 0x61, 0x73, 0x68] + (Ddd(Dot) + [0x64, 0x6F, 0x74]);
    assert q + [Dot] == [0x73, 0x6C, 0x61, 0x73, 0x68, 0x5C, 0x30, 0x34, 0x36, 0x64, 0x6F, 0x74, 0x2E];
    UnescapeSlashDot();
    DecodedRooted(q);
  }

  /** "octal\049\050\051." asks "octal123". */
  lemma DecodeOctal()
    ensures Decoded([0x6F, 0x63, 0x74, 0x61, 0x6C, 0x5C, 0x30, 0x34, 0x39, 0x5C, 0x30, 0x35, 0x30, 0x5C, 0x30, 0x35, 0x31, 0x2E])
         == [0x6F, 0x63, 0x74, 0x61, 0x6C, 0x31, 0x32, 0x33]
  {
    var q := [0x6F, 0x63, 0x74, 0x61, 0x6C] + (Ddd(0x31) + (Ddd(0x32) + Ddd(0x33)));
    assert q + [Dot] == [0x6F, 0x63, 0x74, 0x61, 0x6C, 0x5C, 0x30, 0x34, 0x39, 0x5C, 0x30, 0x35, 0x30, 0x5C, 0x30, 0x35, 0x31, 0x2E];
    UnescapeOctal();
    DecodedRooted(q);
  }
}
