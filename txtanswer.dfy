/// Appending an answer to a reply as TXT records (addTXTChunks in
/// textutil.go): one record per chunk, each numbered "[i/N] " when the answer
/// needs more than one.
module TxtAnswer {
  import opened Wrappers
  import opened Utf8
  import opened Dns
  import Decimal
  import Chunking
  import Strings

  /** The chunk size used when the configured one is not positive. */
  const DefaultLimit: int := 200

  /** The byte limit addTXTChunks actually uses. */
  function EffectiveLimit(limit: int): (l: int)
    ensures l >= 1
    ensures limit >= 1 ==> l == limit
    ensures limit <= 0 ==> l == DefaultLimit
  {
    if limit <= 0 then DefaultLimit else limit
  }

  /** The text of record `i` (counting from 0) of `total`: the bare chunk when it
      is the only one, otherwise the chunk behind a 1-based "[i/N] " tag. */
  function Label(chunk: string, i: nat, total: nat): string
  {
    if total > 1 then Tagged(Decimal.Format(i + 1), Decimal.Format(total), chunk) else chunk
  }

  /** "[a/b] chunk", as fmt's "[%d/%d] %s" writes it for the digits `a` and `b`. */
  function Tagged(a: string, b: string, chunk: string): string
  {
    "[" + (a + ("/" + (b + ("] " + chunk))))
  }

  /** A TXT record for `qname` in class IN with a zero TTL and one character string. */
  function Record(qname: seq<byte>, text: string): RR
  {
    TXT(Header(qname, TypeTXT, ClassINET, 0), [text])
  }

  /** The records addTXTChunks appends for `chunks`, in order. */
  function Records(qname: seq<byte>, chunks: seq<string>): (rrs: seq<RR>)
    ensures |rrs| == |chunks|
    ensures forall i :: 0 <= i < |rrs| ==>
      rrs[i].TXT? && rrs[i].hdr == Header(qname, TypeTXT, ClassINET, 0) && |rrs[i].txt| == 1
  {
    seq(|chunks|, i requires 0 <= i < |chunks| => Record(qname, Label(chunks[i], i, |chunks|)))
  }

  /** addTXTChunks: appends to `m`'s answer section one record per chunk of
      `text`, leaving the records already there as they were. */
  method AddTxtChunks(m: Msg, qname: seq<byte>, text: string, limit: int)
    modifies m`answer
    ensures m.answer == old(m.answer) + Records(qname, Chunking.Split(text, EffectiveLimit(limit)))
  {
    var lim := limit;
    if lim <= 0 {
      lim := DefaultLimit;
    }
    var chunks := Chunking.SplitUtf8ByByteLimit(text, lim);
    ghost var rrs := Records(qname, chunks);
    for i := 0 to |chunks|
      invariant m.answer == old(m.answer) + rrs[..i]
    {
      var rr := Record(qname, Label(chunks[i], i, |chunks|));
      m.answer := m.answer + [rr];
      assert rrs[..i + 1] == rrs[..i] + [rr];
    }
    assert rrs[..|chunks|] == rrs;
  }

  /** A numbered record text taken apart: its 1-based index, the total and the chunk. */
  datatype Numbered = Numbered(index: nat, total: nat, chunk: string)

  /** The length of the run of decimal digits at the start of `s`. */
  function DigitRun(s: string): (n: nat)
    ensures n <= |s| && Decimal.AllDigits(s[..n])
    ensures n < |s| ==> !Decimal.IsDigitChar(s[n])
  {
    if s == [] || !Decimal.IsDigitChar(s[0]) then 0
    else
      var n := 1 + DigitRun(s[1..]);
      assert s[..n] == [s[0]] + s[1..][..n - 1];
      n
  }

  /** Reads a record text of the form "[i/N] chunk", as a client reassembling
      a long answer would; `tag` is a record text. */
  function ParseLabel(tag: string): Option<Numbered>
  {
    if tag == [] || tag[0] != '[' then None else ParseIndex(tag[1..])
  }

  /** "i/N] chunk": the index, then the rest. */
  function ParseIndex(s: string): Option<Numbered>
  {
    var a := DigitRun(s);
    if a == 0 || a == |s| || s[a] != '/' then None
    else
      match ParseTotal(s[a + 1..])
      case None => None
      case Some(rest) => Some(Numbered(Decimal.Parse(s[..a]), rest.0, rest.1))
  }

  /** "N] chunk": the total and the chunk. */
  function ParseTotal(s: string): Option<(nat, string)>
  {
    var b := DigitRun(s);
    if b == 0 || |s| < b + 2 || s[b] != ']' || s[b + 1] != ' ' then None
    else Some((Decimal.Parse(s[..b]), s[b + 2..]))
  }

  /** A run of digits stops at the first character that is not one. */
  lemma {:induction false} DigitRunPrefix(d: string, x: string)
    requires Decimal.AllDigits(d) && x != [] && !Decimal.IsDigitChar(x[0])
    ensures DigitRun(d + x) == |d|
  {
    if d == [] {
      assert d + x == x;
    } else {
      assert (d + x)[0] == d[0] && (d + x)[1..] == d[1..] + x;
      DigitRunPrefix(d[1..], x);
    }
  }

  lemma ParseTotalOf(b: string, chunk: string)
    requires |b| >= 1 && Decimal.AllDigits(b)
    ensures ParseTotal(b + ("] " + chunk)) == Some((Decimal.Parse(b), chunk))
  {
    var s := b + ("] " + chunk);
    assert DigitRun(s) == |b| by {
      DigitRunPrefix(b, "] " + chunk);
    }
    Strings.AroundPair(b, ']', ' ', chunk);
  }

  lemma ParseIndexOf(a: string, b: string, chunk: string)
    requires |a| >= 1 && Decimal.AllDigits(a) && |b| >= 1 && Decimal.AllDigits(b)
    ensures ParseIndex(a + ("/" + (b + ("] " + chunk)))) == Some(Numbered(Decimal.Parse(a), Decimal.Parse(b), chunk))
  {
    var rest := b + ("] " + chunk);
    var s := a + ("/" + rest);
    assert DigitRun(s) == |a| by {
      DigitRunPrefix(a, "/" + rest);
    }
    Strings.Around(a, '/', rest);
    assert ParseTotal(rest) == Some((Decimal.Parse(b), chunk)) by {
      ParseTotalOf(b, chunk);
    }
  }

  /** A text "[a/b] chunk" with two non-empty digit runs reads as the values
      of those runs and the chunk. */
  lemma ParseNumbered(a: string, b: string, chunk: string)
    requires |a| >= 1 && Decimal.AllDigits(a) && |b| >= 1 && Decimal.AllDigits(b)
    ensures ParseLabel(Tagged(a, b, chunk)) == Some(Numbered(Decimal.Parse(a), Decimal.Parse(b), chunk))
  {
    assert Tagged(a, b, chunk)[1..] == a + ("/" + (b + ("] " + chunk)));
    ParseIndexOf(a, b, chunk);
  }

  /** A numbered record text reads back as the index, the total and the chunk
      it was made from. */
  lemma LabelRoundTrip(chunk: string, i: nat, total: nat)
    requires total > 1
    ensures ParseLabel(Label(chunk, i, total)) == Some(Numbered(i + 1, total, chunk))
  {
    ParseNumbered(Decimal.Format(i + 1), Decimal.Format(total), chunk);
    Decimal.ParseFormat(i + 1);
    Decimal.ParseFormat(total);
  }

  /** The chunk carried by record `i` of `total`, when the record has the
      shape addTXTChunks gives it. */
  function ChunkOf(rr: RR, i: nat, total: nat): Option<string>
  {
    if !rr.TXT? || |rr.txt| != 1 then None
    else if total <= 1 then Some(rr.txt[0])
    else
      match ParseLabel(rr.txt[0])
      case Some(n) => if n.index == i + 1 && n.total == total then Some(n.chunk) else None
      case None => None
  }

  /** The chunks carried by records `i` onwards, or None when one of them is
      out of place. */
  function ChunksFrom(rrs: seq<RR>, i: nat): Option<seq<string>>
    requires i <= |rrs|
    decreases |rrs| - i
  {
    if i == |rrs| then Some([])
    else
      match ChunkOf(rrs[i], i, |rrs|)
      case None => None
      case Some(c) =>
        match ChunksFrom(rrs, i + 1)
        case None => None
        case Some(cs) => Some([c] + cs)
  }

  /** A record made for chunk `i` of `total` carries that chunk. */
  lemma ChunkOfRecord(qname: seq<byte>, chunk: string, i: nat, total: nat)
    ensures ChunkOf(Record(qname, Label(chunk, i, total)), i, total) == Some(chunk)
  {
    if total > 1 {
      LabelRoundTrip(chunk, i, total);
    }
  }

  lemma {:induction false} RecordsFrom(qname: seq<byte>, chunks: seq<string>, i: nat)
    requires i <= |chunks|
    ensures ChunksFrom(Records(qname, chunks), i) == Some(chunks[i..])
    decreases |chunks| - i
  {
    var rrs := Records(qname, chunks);
    if i < |chunks| {
      assert ChunkOf(rrs[i], i, |rrs|) == Some(chunks[i]) by {
        assert rrs[i] == Record(qname, Label(chunks[i], i, |chunks|));
        ChunkOfRecord(qname, chunks[i], i, |chunks|);
      }
      RecordsFrom(qname, chunks, i + 1);
      assert chunks[i..] == [chunks[i]] + chunks[i + 1..];
    } else {
      assert chunks[i..] == [];
    }
  }

  /** The records read back, in order, as the chunks they were made from. */
  lemma RecordsRoundTrip(qname: seq<byte>, chunks: seq<string>)
    ensures ChunksFrom(Records(qname, chunks), 0) == Some(chunks)
  {
    RecordsFrom(qname, chunks, 0);
    assert chunks[0..] == chunks;
  }

  /** What addTXTChunks appends always holds at least one record, and a client
      that reads the records back in order recovers the text without the code
      points too long for the effective limit. */
  lemma AnswerRoundTrip(qname: seq<byte>, text: string, limit: int)
    ensures var rrs := Records(qname, Chunking.Split(text, EffectiveLimit(limit)));
      && |rrs| >= 1
      && ChunksFrom(rrs, 0).Some?
      && Chunking.Concat(ChunksFrom(rrs, 0).value) == Chunking.Keep(text, EffectiveLimit(limit))
  {
    var chunks := Chunking.Split(text, EffectiveLimit(limit));
    RecordsRoundTrip(qname, chunks);
    Chunking.SplitProperties(text, EffectiveLimit(limit));
  }

  /** Record `i` of three carries its chunk behind "[i+1/3] ". */
  lemma RecordOfThree(qname: seq<byte>, chunks: seq<string>, i: nat)
    requires |chunks| == 3 && i < 3
    ensures Records(qname, chunks)[i] == Record(qname, ['[', Decimal.DigitChar(i + 1), '/', '3', ']', ' '] + chunks[i])
  {
    assert Decimal.Format(i + 1) == [Decimal.DigitChar(i + 1)];
    assert Decimal.Format(3) == ['3'];
    var d := Decimal.DigitChar(i + 1);
    assert Tagged([d], ['3'], chunks[i]) == ['[', d, '/', '3', ']', ' '] + chunks[i];
  }

  /** Three chunks are tagged 1/3, 2/3 and 3/3. */
  lemma ThreeRecords(qname: seq<byte>, chunks: seq<string>)
    requires |chunks| == 3
    ensures var rrs := Records(qname, chunks);
      && rrs[0] == Record(qname, "[1/3] " + chunks[0])
      && rrs[1] == Record(qname, "[2/3] " + chunks[1])
      && rrs[2] == Record(qname, "[3/3] " + chunks[2])
  {
    RecordOfThree(qname, chunks, 0);
    RecordOfThree(qname, chunks, 1);
    RecordOfThree(qname, chunks, 2);
    assert ['[', Decimal.DigitChar(1), '/', '3', ']', ' '] == "[1/3] ";
    assert ['[', Decimal.DigitChar(2), '/', '3', ']', ' '] == "[2/3] ";
    assert ['[', Decimal.DigitChar(3), '/', '3', ']', ' '] == "[3/3] ";
  }

  /** Five hundred letters under the default limit give three records,
      numbered 1/3, 2/3 and 3/3, of 200, 200 and 100 letters. */
  lemma FiveHundredLetterRecords(qname: seq<byte>)
    ensures var rrs := Records(qname, Chunking.Split(Chunking.Repeat('a', 500), EffectiveLimit(0)));
      && |rrs| == 3
      && rrs[0] == Record(qname, "[1/3] " + Chunking.Repeat('a', 200))
      && rrs[1] == Record(qname, "[2/3] " + Chunking.Repeat('a', 200))
      && rrs[2] == Record(qname, "[3/3] " + Chunking.Repeat('a', 100))
  {
    var chunks := Chunking.Split(Chunking.Repeat('a', 500), EffectiveLimit(0));
    Chunking.FiveHundredLetters();
    ThreeRecords(qname, chunks);
  }
}
