/**
 The crash-tolerant reader.  A file is plain text or a gzip member; gzip itself is an opaque
 inverse pair, so a member is represented by what it decompresses to.
 */
module GzipReader {
  import opened Sequences
  import opened Bytes
  import opened Json

  /** `Gz(inner, trail)`: one gzip member holding `inner`, then `trail` bytes without a gzip magic. */
  datatype Content = Plain(text: bytes) | Gz(inner: Content, trail: bytes)

  const MAGIC: bytes := [0x1f, 0x8b]

  predicate IsGzip(c: Content) {
    c.Gz? || MAGIC <= c.text
  }

  // ---------- specification ----------

  /** The plain reader scans only after a further chunk arrived behind its two-byte probe. */
  function PlainRecords(text: bytes): seq<bytes> {
    if |text| <= 2 then [] else Lines(text)
  }

  /**
   What `iter_records` yields.  After the member the reader looks for another gzip magic, so
   trailing plain bytes are never returned.  A gzip of a gzip yields compressed bytes, no records.
   */
  function Records(c: Content): seq<bytes> {
    match c
    case Plain(text) => if MAGIC <= text then [] else PlainRecords(text)
    case Gz(Plain(text), _) => Lines(text)
    case Gz(Gz(_, _), _) => []
  }

  /** `iter_events` keeps the records that parse. */
  ghost function Parsed(records: seq<bytes>): seq<bytes> {
    if records == [] then []
    else (if IsJsonText(records[0]) then [records[0]] else []) + Parsed(records[1..])
  }

  ghost function Events(c: Content): seq<bytes> {
    Parsed(Records(c))
  }

  lemma {:induction false} ParsedAppend(a: seq<bytes>, b: seq<bytes>)
    ensures Parsed(a + b) == Parsed(a) + Parsed(b)
    decreases |a|
  {
    if a == [] {
      assert a + b == b;
    } else {
      assert (a + b)[1..] == a[1..] + b;
      ParsedAppend(a[1..], b);
    }
  }

  // ---------- the plain reader ----------

  method FindByte(buf: bytes, b: byte, start: nat) returns (idx: int)
    requires start <= |buf|
    ensures idx == -1 || start <= idx < |buf|
    ensures idx == -1 ==> b !in buf[start..]
    ensures idx != -1 ==> buf[idx] == b && b !in buf[start..idx]
  {
    idx := start;
    while idx < |buf|
      invariant start <= idx <= |buf|
      invariant b !in buf[start..idx]
    {
      if buf[idx] == b {
        return;
      }
      idx := idx + 1;
    }
    assert buf[start..idx] == buf[start..];
    idx := -1;
  }

  lemma {:induction false} ConcatSnoc(parts: seq<bytes>, p: bytes)
    ensures Concat(parts + [p]) == Concat(parts) + p
    decreases |parts|
  {
    if parts == [] {
      assert parts + [p] == [p];
      assert Concat([p]) == p + Concat([]);
    } else {
      assert (parts + [p])[1..] == parts[1..] + [p];
      ConcatSnoc(parts[1..], p);
    }
  }

  /** One line leaves the buffer: `rest` is scanned on from the records already yielded. */
  lemma {:induction false} YieldLine(records: seq<bytes>, buf: bytes, start: nat, idx: nat)
    requires start <= idx < |buf| && buf[idx] == NL && NL !in buf[start..idx]
    ensures Feed(Cut(records, []), buf[start..])
         == Feed(Cut(records + [buf[start..idx]], []), buf[idx + 1..])
  {
    var r := buf[start..idx];
    assert buf[start..] == (r + [NL]) + buf[idx + 1..];
    FeedAppend(Cut(records, []), r + [NL], buf[idx + 1..]);
    FeedLine(Cut(records, []), r);
    assert [] + r == r;
  }

  /** The inner loop: every closed line of the buffer is yielded, what follows the last newline stays. */
  method ScanLines(before: seq<bytes>, buf: bytes) returns (records: seq<bytes>, rest: bytes)
    ensures Feed(Cut(records, []), rest) == Feed(Cut(before, []), buf) && NL !in rest
  {
    records, rest := before, buf;
    var start := 0;
    assert buf[0..] == buf;
    var idx := FindByte(buf, NL, start);
    while idx != -1
      invariant 0 <= start <= |buf|
      invariant idx == -1 || start <= idx < |buf|
      invariant idx == -1 ==> NL !in buf[start..]
      invariant idx != -1 ==> buf[idx] == NL && NL !in buf[start..idx]
      invariant Feed(Cut(records, []), buf[start..]) == Feed(Cut(before, []), buf)
      decreases |buf| - start, if idx == -1 then 0 else 1
    {
      YieldLine(records, buf, start, idx);
      records := records + [buf[start..idx]];
      start := idx + 1;
      idx := FindByte(buf, NL, start);
    }
    if start > 0 {
      rest := buf[start..];
    }
  }

  /**
   The generator `_iter_plain_records`; `chunks` are its successive nonempty reads.
   However the file is cut, exactly the newline-terminated lines come out, once one chunk arrived.
   */
  method IterPlainRecords(head: bytes, chunks: seq<bytes>) returns (records: seq<bytes>)
    requires forall i :: 0 <= i < |chunks| ==> chunks[i] != []
    ensures records == if chunks == [] then [] else Lines(head + Concat(chunks))
  {
    records := [];
    var buf := head;
    var i := 0;
    assert head + Concat(chunks[..0]) == head;
    while i < |chunks|
      invariant 0 <= i <= |chunks|
      invariant Feed(Cut(records, []), buf) == Feed(EMPTY, head + Concat(chunks[..i]))
      invariant i == 0 ==> records == [] && buf == head
      invariant i > 0 ==> NL !in buf
    {
      var chunk := chunks[i];
      FeedAppend(Cut(records, []), buf, chunk);
      FeedAppend(EMPTY, head + Concat(chunks[..i]), chunk);
      assert chunks[..i + 1] == chunks[..i] + [chunk];
      ConcatSnoc(chunks[..i], chunk);
      assert head + Concat(chunks[..i + 1]) == (head + Concat(chunks[..i])) + chunk;
      records, buf := ScanLines(records, buf + chunk);
      i := i + 1;
    }
    assert chunks[..i] == chunks;
    if chunks != [] {
      FeedPlain(Cut(records, []), buf);
    }
  }

  /** `iter_records` on a plain file: the two-byte probe, then the rest in any cut. */
  method IterRecords(text: bytes, rest: seq<bytes>) returns (records: seq<bytes>)
    requires Concat(rest) == if |text| <= 2 then [] else text[2..]
    requires forall i :: 0 <= i < |rest| ==> rest[i] != []
    requires !(MAGIC <= text)
    ensures records == Records(Plain(text))
  {
    var head := if |text| <= 2 then text else text[..2];
    records := IterPlainRecords(head, rest);
    assert rest != [] ==> Concat(rest) == rest[0] + Concat(rest[1..]);
    if |text| > 2 {
      assert head + Concat(rest) == text;
    }
  }

  /** The boundary is exact: the reader equals the line specification unless a tiny file has a newline. */
  lemma {:induction false} PlainRecordsExact(text: bytes)
    ensures PlainRecords(text) == Lines(text) <==> |text| > 2 || NL !in text
  {
    if NL !in text {
      FeedPlain(EMPTY, text);
    } else {
      SplitThenJoin(text);
      assert Lines(text) == [] ==> [] + Tail(text) == text;
    }
  }

  // ---------- the gzip-side splitter ----------

  /** `out.split(b"\n")`: the closed lines, then what follows the last newline. */
  function SplitOnNewline(out: bytes): (parts: seq<bytes>) {
    Lines(out) + [Tail(out)]
  }

  /** A scan over `out` closes the old tail with the first part and leaves the last part open. */
  lemma {:induction false} JoinParts(c: Cut, out: bytes)
    ensures
      var parts := SplitOnNewline(out);
      var glued := parts[0 := c.tail + parts[0]];
      Feed(c, out) == Cut(c.lines + glued[..|glued| - 1], glued[|glued| - 1])
  {
    FeedShift(c.lines, Cut([], c.tail), out);
    assert c.lines + [] == c.lines;
    TailGlues(c.tail, out);
  }

  lemma {:induction false} TailGlues(t: bytes, out: bytes)
    ensures
      var parts := SplitOnNewline(out);
      var glued := parts[0 := t + parts[0]];
      Feed(Cut([], t), out) == Cut(glued[..|glued| - 1], glued[|glued| - 1])
  {
    var lines, tail := Lines(out), Tail(out);
    SplitThenJoin(out);
    if lines == [] {
      assert out == tail;
      FeedPlain(Cut([], t), out);
    } else {
      var r, rest := lines[0], Unlines(lines[1..]) + tail;
      assert out == (r + [NL]) + rest;
      FeedAppend(Cut([], t), r + [NL], rest);
      FeedLine(Cut([], t), r);
      FeedShift([t + r], EMPTY, rest);
      JoinThenSplit(lines[1..], tail);
      assert EMPTY.lines + [t + r] == [t + r] && [t + r] + EMPTY.lines == [t + r];
      var glued := (lines + [tail])[0 := t + r];
      assert glued[..|glued| - 1] == [t + r] + lines[1..];
      assert glued[|glued| - 1] == tail;
      assert Feed(Cut([], t), out) == Feed(Cut([t + r], []), rest);
      assert Lines(rest) == lines[1..] && Tail(rest) == tail;
    }
  }

  /**
   The record splitter of `_iter_gzip_records` over one member: `outs` are the successive
   decompressor outputs.  Its result does not depend on how they are cut.
   */
  method SplitMember(outs: seq<bytes>) returns (records: seq<bytes>)
    ensures records == Lines(Concat(outs))
  {
    records := [];
    var lineBuf: bytes := [];
    var i := 0;
    while i < |outs|
      invariant 0 <= i <= |outs|
      invariant Cut(records, lineBuf) == Feed(EMPTY, Concat(outs[..i]))
    {
      var parts := SplitOnNewline(outs[i]);
      JoinParts(Cut(records, lineBuf), outs[i]);
      records, lineBuf := AddParts(records, lineBuf, parts);
      MoreOutput(outs, i);
      i := i + 1;
    }
    assert outs[..i] == outs;
  }

  /** The inner loop: the first part closes the open line, the last one stays open. */
  method AddParts(records: seq<bytes>, lineBuf: bytes, parts: seq<bytes>)
    returns (records': seq<bytes>, lineBuf': bytes)
    requires parts != []
    ensures var glued := parts[0 := lineBuf + parts[0]];
      records' == records + glued[..|glued| - 1] && lineBuf' == glued[|glued| - 1]
  {
    ghost var glued := parts[0 := lineBuf + parts[0]];
    records', lineBuf' := records, lineBuf + parts[0];
    var j := 1;
    while j < |parts|
      invariant 1 <= j <= |parts|
      invariant records' == records + glued[..j - 1]
      invariant lineBuf' == glued[j - 1]
    {
      NextPrefix(glued, j - 1);
      Regroup(records, glued[..j - 1], [glued[j - 1]]);
      records' := records' + [lineBuf'];
      lineBuf' := parts[j];
      j := j + 1;
    }
  }

  lemma {:induction false} MoreOutput(outs: seq<bytes>, i: nat)
    requires i < |outs|
    ensures Feed(EMPTY, Concat(outs[..i + 1])) == Feed(Feed(EMPTY, Concat(outs[..i])), outs[i])
  {
    assert outs[..i + 1] == outs[..i] + [outs[i]];
    ConcatSnoc(outs[..i], outs[i]);
    FeedAppend(EMPTY, Concat(outs[..i]), outs[i]);
  }

  /**
   A rotated log reads the same before and after compression, for every file of more than two bytes,
   however the plain file is cut into reads and however the decompressor cuts its output.
   */
  method CompressionInvisible(text: bytes, plainCut: seq<bytes>, gzipCut: seq<bytes>)
    returns (plain: seq<bytes>, compressed: seq<bytes>)
    requires |text| > 2 && !(MAGIC <= text)
    requires Concat(plainCut) == text[2..] && forall i :: 0 <= i < |plainCut| ==> plainCut[i] != []
    requires Concat(gzipCut) == text
    ensures plain == compressed == Lines(text)
    ensures plain == Records(Plain(text)) && compressed == Records(Gz(Plain(text), []))
  {
    plain := IterRecords(text, plainCut);
    compressed := SplitMember(gzipCut);
  }
}
