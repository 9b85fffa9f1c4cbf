/** Byte strings and the newline framing every capture file relies on. */
module Bytes {

  newtype byte = x: int | 0 <= x < 256

  type bytes = seq<byte>

  const NL: byte := 10

  /** What a left-to-right scan has seen: the closed lines and the open remainder. */
  datatype Cut = Cut(lines: seq<bytes>, tail: bytes)

  const EMPTY := Cut([], [])

  function Push(c: Cut, b: byte): Cut {
    if b == NL then Cut(c.lines + [c.tail], []) else Cut(c.lines, c.tail + [b])
  }

  function Feed(c: Cut, s: bytes): Cut
    decreases |s|
  {
    if s == [] then c else Feed(Push(c, s[0]), s[1..])
  }

  /** The newline-terminated lines of `s`, newlines stripped. */
  function Lines(s: bytes): seq<bytes> {
    Feed(EMPTY, s).lines
  }

  /** What follows the last newline of `s`. */
  function Tail(s: bytes): bytes {
    Feed(EMPTY, s).tail
  }

  function Concat(parts: seq<bytes>): bytes {
    if parts == [] then [] else parts[0] + Concat(parts[1..])
  }

  /** The inverse direction: every line followed by its newline. */
  function Unlines(lines: seq<bytes>): bytes {
    if lines == [] then [] else lines[0] + [NL] + Unlines(lines[1..])
  }

  // ---------- scanning is a homomorphism ----------

  lemma {:induction false} FeedAppend(c: Cut, a: bytes, b: bytes)
    ensures Feed(c, a + b) == Feed(Feed(c, a), b)
    decreases |a|
  {
    if a == [] {
      assert a + b == b;
    } else {
      assert (a + b)[1..] == a[1..] + b;
      FeedAppend(Push(c, a[0]), a[1..], b);
    }
  }

  lemma {:induction false} FeedPlain(c: Cut, s: bytes)
    requires NL !in s
    ensures Feed(c, s) == Cut(c.lines, c.tail + s)
    decreases |s|
  {
    if s == [] {
      assert c.tail + s == c.tail;
    } else {
      FeedPlain(Push(c, s[0]), s[1..]);
      assert c.tail + [s[0]] + s[1..] == c.tail + s;
    }
  }

  lemma {:induction false} FeedLine(c: Cut, r: bytes)
    requires NL !in r
    ensures Feed(c, r + [NL]) == Cut(c.lines + [c.tail + r], [])
  {
    FeedAppend(c, r, [NL]);
    FeedPlain(c, r);
  }

  /** Lines already closed do not influence the rest of a scan. */
  lemma {:induction false} FeedShift(ls: seq<bytes>, c: Cut, s: bytes)
    ensures Feed(Cut(ls + c.lines, c.tail), s) == Cut(ls + Feed(c, s).lines, Feed(c, s).tail)
    decreases |s|
  {
    if s != [] {
      if s[0] == NL {
        assert ls + c.lines + [c.tail] == ls + (c.lines + [c.tail]);
      }
      FeedShift(ls, Push(c, s[0]), s[1..]);
    }
  }

  lemma {:induction false} LinesAppend(a: bytes, b: bytes)
    requires Tail(a) == []
    ensures Lines(a + b) == Lines(a) + Lines(b) && Tail(a + b) == Tail(b)
  {
    FeedAppend(EMPTY, a, b);
    FeedShift(Lines(a), EMPTY, b);
    assert Lines(a) + [] == Lines(a);
  }

  /** Appending one newline-free record and its newline. */
  lemma {:induction false} AppendLine(b: bytes, r: bytes)
    requires NL !in r
    ensures Lines(b + r + [NL]) == Lines(b) + [Tail(b) + r] && Tail(b + r + [NL]) == []
  {
    assert b + r + [NL] == b + (r + [NL]);
    FeedAppend(EMPTY, b, r + [NL]);
    FeedLine(Feed(EMPTY, b), r);
  }

  lemma {:induction false} AppendPlain(b: bytes, p: bytes)
    requires NL !in p
    ensures Lines(b + p) == Lines(b) && Tail(b + p) == Tail(b) + p
  {
    FeedAppend(EMPTY, b, p);
    FeedPlain(Feed(EMPTY, b), p);
  }

  lemma {:induction false} TailVsLastByte(b: bytes)
    ensures Tail(b) == [] <==> b == [] || b[|b| - 1] == NL
  {
    if b != [] {
      assert b == b[..|b| - 1] + [b[|b| - 1]];
      FeedAppend(EMPTY, b[..|b| - 1], [b[|b| - 1]]);
    }
  }

  // ---------- truncation ----------

  /** Scanning on only closes lines; it never reopens or rewrites one. */
  lemma {:induction false} FeedGrows(c: Cut, s: bytes)
    ensures c.lines <= Feed(c, s).lines
    ensures |c.lines| == |Feed(c, s).lines| ==> c.tail <= Feed(c, s).tail
    ensures |c.lines| < |Feed(c, s).lines| ==> c.tail <= Feed(c, s).lines[|c.lines|]
    decreases |s|
  {
    if s != [] {
      FeedGrows(Push(c, s[0]), s[1..]);
    }
  }

  /** Cutting a byte string keeps a prefix of its lines; the cut line survives as a prefix. */
  lemma {:induction false} Truncate(b: bytes, k: nat)
    requires k <= |b|
    ensures Lines(b[..k]) <= Lines(b)
    ensures |Lines(b[..k])| == |Lines(b)| ==> Tail(b[..k]) <= Tail(b)
    ensures |Lines(b[..k])| < |Lines(b)| ==> Tail(b[..k]) <= Lines(b)[|Lines(b[..k])|]
  {
    assert b == b[..k] + b[k..];
    FeedAppend(EMPTY, b[..k], b[k..]);
    FeedGrows(Feed(EMPTY, b[..k]), b[k..]);
  }

  lemma {:induction false} TruncateMonotone(b: bytes, j: nat, k: nat)
    requires j <= k <= |b|
    ensures |Lines(b[..j])| <= |Lines(b[..k])|
  {
    Truncate(b[..k], j);
    assert b[..k][..j] == b[..j];
  }

  // ---------- the framing is a bijection ----------

  ghost predicate NewlineFree(lines: seq<bytes>) {
    forall i :: 0 <= i < |lines| ==> NL !in lines[i]
  }

  lemma {:induction false} UnlinesSnoc(ls: seq<bytes>, l: bytes)
    ensures Unlines(ls + [l]) == Unlines(ls) + l + [NL]
    decreases |ls|
  {
    if ls == [] {
      assert ls + [l] == [l];
      assert Unlines([l]) == l + [NL] + Unlines([]);
    } else {
      assert (ls + [l])[1..] == ls[1..] + [l];
      UnlinesSnoc(ls[1..], l);
      assert ls[0] + [NL] + (Unlines(ls[1..]) + l + [NL]) == ls[0] + [NL] + Unlines(ls[1..]) + l + [NL];
    }
  }

  /** Lines and tail lose nothing: putting the newlines back gives the input. */
  lemma {:induction false} SplitThenJoin(b: bytes)
    ensures NewlineFree(Lines(b)) && NL !in Tail(b)
    ensures Unlines(Lines(b)) + Tail(b) == b
    decreases |b|
  {
    if b != [] {
      var a, x := b[..|b| - 1], b[|b| - 1];
      assert b == a + [x];
      SplitThenJoin(a);
      FeedAppend(EMPTY, a, [x]);
      if x == NL {
        UnlinesSnoc(Lines(a), Tail(a));
      }
    }
  }

  /** Any newline-free lines and tail are recovered from their joined form. */
  lemma {:induction false} JoinThenSplit(ls: seq<bytes>, t: bytes)
    requires NewlineFree(ls) && NL !in t
    ensures Lines(Unlines(ls) + t) == ls && Tail(Unlines(ls) + t) == t
    decreases |ls|
  {
    if ls == [] {
      assert Unlines(ls) + t == t;
      FeedPlain(EMPTY, t);
    } else {
      var head, rest := ls[0] + [NL], Unlines(ls[1..]) + t;
      assert Unlines(ls) + t == head + rest;
      FeedLine(EMPTY, ls[0]);
      assert EMPTY.tail + ls[0] == ls[0];
      LinesAppend(head, rest);
      JoinThenSplit(ls[1..], t);
      assert [ls[0]] + ls[1..] == ls;
    }
  }
}
