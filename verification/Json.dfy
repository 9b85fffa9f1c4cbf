/**
 The text of the records.  A JSON text is described by its derivation tree (sections 2 to 7 of
 RFC 8259), slightly over-generously: a scalar is any run of bytes that are not structural, and
 every escape letter is allowed.  Everything proved about texts that are NOT derivable therefore
 also holds for a stricter parser.
 */
module Json {
  import opened Bytes

  const QUOTE: byte := 34
  const COMMA: byte := 44
  const COLON: byte := 58
  const LBRACK: byte := 91
  const BACKSLASH: byte := 92
  const RBRACK: byte := 93
  const LBRACE: byte := 123
  const RBRACE: byte := 125

  /** One character of a string literal: a plain byte, or a backslash and the byte it escapes. */
  datatype Item = Raw(b: byte) | Escape(b: byte)

  datatype Value =
    | Scalar(token: bytes)
    | Str(items: seq<Item>)
    | Arr(pad: bytes, elems: Elems)
    | Obj(pad: bytes, members: Members)

  datatype Elems = NoElems | Elem(before: bytes, v: Value, after: bytes, rest: Elems)

  datatype Members =
    | NoMembers
    | Member(before: bytes, key: seq<Item>, mid: bytes, gap: bytes, v: Value, after: bytes, rest: Members)

  function RenderItems(items: seq<Item>): bytes {
    if items == [] then []
    else (match items[0] case Raw(b) => [b] case Escape(b) => [BACKSLASH, b]) + RenderItems(items[1..])
  }

  function Quoted(items: seq<Item>): bytes {
    [QUOTE] + RenderItems(items) + [QUOTE]
  }

  function Render(v: Value): bytes {
    match v
    case Scalar(token) => token
    case Str(items) => Quoted(items)
    case Arr(pad, es) => [LBRACK] + (pad + RenderElems(es)) + [RBRACK]
    case Obj(pad, ms) => [LBRACE] + (pad + RenderMembers(ms)) + [RBRACE]
  }

  function RenderElems(es: Elems): bytes {
    match es
    case NoElems => []
    case Elem(before, v, after, rest) =>
      before + (Render(v) + (after + (if rest.NoElems? then [] else [COMMA] + RenderElems(rest))))
  }

  function RenderMembers(ms: Members): bytes {
    match ms
    case NoMembers => []
    case Member(before, key, mid, gap, v, after, rest) =>
      before + (Quoted(key) + (mid + ([COLON] + (gap + (Render(v) + (after +
        (if rest.NoMembers? then [] else [COMMA] + RenderMembers(rest))))))))
  }

  predicate Space(s: bytes) {
    forall i :: 0 <= i < |s| ==> s[i] == 32 || s[i] == 9 || s[i] == 10 || s[i] == 13
  }

  predicate Bare(b: byte) {
    32 <= b && b != QUOTE && b != COMMA && b != COLON && b != LBRACK && b != RBRACK && b != LBRACE && b != RBRACE
  }

  predicate OkItems(items: seq<Item>) {
    forall i :: 0 <= i < |items| ==>
      32 <= items[i].b && (items[i].Raw? ==> items[i].b != QUOTE && items[i].b != BACKSLASH)
  }

  predicate Ok(v: Value) {
    match v
    case Scalar(token) => token != [] && forall i :: 0 <= i < |token| ==> Bare(token[i])
    case Str(items) => OkItems(items)
    case Arr(pad, es) => Space(pad) && OkElems(es)
    case Obj(pad, ms) => Space(pad) && OkMembers(ms)
  }

  predicate OkElems(es: Elems) {
    es.Elem? ==> Space(es.before) && Ok(es.v) && Space(es.after) && OkElems(es.rest)
  }

  predicate OkMembers(ms: Members) {
    ms.Member? ==>
      && Space(ms.before) && OkItems(ms.key) && Space(ms.mid) && Space(ms.gap)
      && Ok(ms.v) && Space(ms.after) && OkMembers(ms.rest)
  }

  /** No optional white space anywhere: what `json.dumps` prints with `separators=(",", ":")`. */
  predicate Compact(v: Value) {
    match v
    case Scalar(_) => true
    case Str(_) => true
    case Arr(pad, es) => pad == [] && CompactElems(es)
    case Obj(pad, ms) => pad == [] && CompactMembers(ms)
  }

  predicate CompactElems(es: Elems) {
    es.Elem? ==> es.before == [] && Compact(es.v) && es.after == [] && CompactElems(es.rest)
  }

  predicate CompactMembers(ms: Members) {
    ms.Member? ==>
      && ms.before == [] && ms.mid == [] && ms.gap == []
      && Compact(ms.v) && ms.after == [] && CompactMembers(ms.rest)
  }

  /** `v` is a derivation of `t` with the given surrounding white space. */
  ghost predicate Derives(before: bytes, v: Value, after: bytes, t: bytes) {
    Space(before) && Ok(v) && Space(after) && t == before + (Render(v) + after)
  }

  /** `json.loads` accepts `t`. */
  ghost predicate IsJsonText(t: bytes) {
    exists before, v, after :: Derives(before, v, after, t)
  }

  ghost predicate Prints(v: Value, r: bytes) {
    v.Obj? && Ok(v) && Compact(v) && Render(v) == r
  }

  /** A record the writer serializes: one compactly printed JSON object. */
  ghost predicate IsRecord(r: bytes) {
    exists v :: Prints(v, r)
  }

  // ---------- a bracket scanner ----------

  datatype Mode = Outside | Inside | Escaped

  datatype Scan = Scan(depth: int, mode: Mode)

  function Read(s: Scan, b: byte): Scan {
    match s.mode
    case Escaped => Scan(s.depth, Inside)
    case Inside =>
      if b == QUOTE then Scan(s.depth, Outside)
      else if b == BACKSLASH then Scan(s.depth, Escaped)
      else s
    case Outside =>
      if b == QUOTE then Scan(s.depth, Inside)
      else if b == LBRACE || b == LBRACK then Scan(s.depth + 1, Outside)
      else if b == RBRACE || b == RBRACK then Scan(s.depth - 1, Outside)
      else s
  }

  function ReadAll(s: Scan, t: bytes): Scan
    decreases |t|
  {
    if t == [] then s else ReadAll(Read(s, t[0]), t[1..])
  }

  lemma {:induction false} ReadAppend(s: Scan, a: bytes, b: bytes)
    ensures ReadAll(s, a + b) == ReadAll(ReadAll(s, a), b)
    decreases |a|
  {
    if a == [] {
      assert a + b == b;
    } else {
      assert (a + b)[1..] == a[1..] + b;
      ReadAppend(Read(s, a[0]), a[1..], b);
    }
  }

  /** `t` is bracket-balanced and never closes more than it opened, at any starting depth. */
  ghost predicate Stays(t: bytes) {
    forall d: int :: StaysFrom(t, d)
  }

  ghost predicate StaysFrom(t: bytes, d: int) {
    && ReadAll(Scan(d, Outside), t) == Scan(d, Outside)
    && forall k :: 0 <= k <= |t| ==> ReadAll(Scan(d, Outside), t[..k]).depth >= d
  }

  lemma {:induction false} StaysConcat(a: bytes, b: bytes)
    requires Stays(a) && Stays(b)
    ensures Stays(a + b)
  {
    forall d: int ensures StaysFrom(a + b, d) {
      assert StaysFrom(a, d) && StaysFrom(b, d);
      ReadAppend(Scan(d, Outside), a, b);
      forall k | 0 <= k <= |a + b| ensures ReadAll(Scan(d, Outside), (a + b)[..k]).depth >= d {
        if k <= |a| {
          assert (a + b)[..k] == a[..k];
        } else {
          assert (a + b)[..k] == a + b[..k - |a|];
          ReadAppend(Scan(d, Outside), a, b[..k - |a|]);
        }
      }
    }
  }

  /** Inside a bracket pair, every proper nonempty prefix is still open. */
  lemma {:induction false} OpenInside(open: byte, t: bytes, close: byte, d: int, k: nat)
    requires open == LBRACE || open == LBRACK
    requires Stays(t)
    requires 0 < k < |[open] + t + [close]|
    ensures ReadAll(Scan(d, Outside), ([open] + t + [close])[..k]).depth > d
  {
    assert ([open] + t + [close])[..k] == [open] + t[..k - 1];
    ReadAppend(Scan(d, Outside), [open], t[..k - 1]);
    assert StaysFrom(t, d + 1);
  }

  lemma {:induction false} StaysNested(open: byte, t: bytes, close: byte)
    requires (open == LBRACE && close == RBRACE) || (open == LBRACK && close == RBRACK)
    requires Stays(t)
    ensures Stays([open] + t + [close])
  {
    var s := [open] + t + [close];
    forall d: int ensures StaysFrom(s, d) {
      assert StaysFrom(t, d + 1);
      ReadAppend(Scan(d, Outside), [open] + t, [close]);
      ReadAppend(Scan(d, Outside), [open], t);
      assert ReadAll(Scan(d, Outside), s) == Scan(d, Outside);
      forall k | 0 <= k <= |s| ensures ReadAll(Scan(d, Outside), s[..k]).depth >= d {
        if 0 < k < |s| {
          OpenInside(open, t, close, d, k);
        } else if k == |s| {
          assert s[..k] == s;
        }
      }
    }
  }

  lemma {:induction false} StaysFlat(t: bytes)
    requires forall i :: 0 <= i < |t| ==>
      t[i] != QUOTE && t[i] != LBRACE && t[i] != LBRACK && t[i] != RBRACE && t[i] != RBRACK
    ensures Stays(t)
    decreases |t|
  {
    if t == [] {
    } else {
      StaysFlat(t[1..]);
      var a := t[..1];
      forall d: int ensures StaysFrom(a, d) {
        forall k | 0 <= k <= |a| ensures ReadAll(Scan(d, Outside), a[..k]).depth >= d {}
      }
      StaysConcat(a, t[1..]);
      assert a + t[1..] == t;
    }
  }

  /** Within a string literal the depth is untouched and only the closing quote leaves it. */
  lemma {:induction false} InsideItems(items: seq<Item>, d: int, k: nat)
    requires OkItems(items) && k <= |RenderItems(items)|
    ensures ReadAll(Scan(d, Inside), RenderItems(items)) == Scan(d, Inside)
    ensures ReadAll(Scan(d, Inside), RenderItems(items)[..k]).depth == d
    ensures ReadAll(Scan(d, Inside), RenderItems(items)[..k]).mode != Outside
    decreases |items|
  {
    if items != [] {
      var s, head, rest := Scan(d, Inside), RenderItems(items[..1]), RenderItems(items[1..]);
      assert RenderItems(items) == head + rest by {
        assert RenderItems(items[..1][1..]) == [];
        assert head == (match items[0] case Raw(b) => [b] case Escape(b) => [BACKSLASH, b]) + [];
      }
      ReadAppend(s, head, rest);
      assert ReadAll(s, head) == s by {
        if items[0].Escape? {
          ReadAppend(s, [BACKSLASH], [items[0].b]);
          assert head == [BACKSLASH] + [items[0].b];
        }
      }
      InsideItems(items[1..], d, if k < |head| then 0 else k - |head|);
      if k < |head| {
        assert RenderItems(items)[..k] == head[..k];
        assert head[..k] == [] || head[..k] == [BACKSLASH];
      } else {
        assert RenderItems(items)[..k] == head + rest[..k - |head|];
        ReadAppend(s, head, rest[..k - |head|]);
      }
    }
  }

  lemma {:induction false} QuotedStays(items: seq<Item>)
    requires OkItems(items)
    ensures Stays(Quoted(items))
  {
    var body, s := RenderItems(items), Quoted(items);
    forall d: int ensures StaysFrom(s, d) {
      InsideItems(items, d, 0);
      ReadAppend(Scan(d, Outside), [QUOTE], body);
      ReadAppend(Scan(d, Outside), [QUOTE] + body, [QUOTE]);
      assert ReadAll(Scan(d, Outside), s) == Scan(d, Outside);
      forall k | 0 <= k <= |s| ensures ReadAll(Scan(d, Outside), s[..k]).depth >= d {
        if k == |s| {
          assert s[..k] == s;
        } else if k > 0 {
          assert s[..k] == [QUOTE] + body[..k - 1];
          ReadAppend(Scan(d, Outside), [QUOTE], body[..k - 1]);
          InsideItems(items, d, k - 1);
        }
      }
    }
  }

  /** Every derivable value is bracket-balanced and never dips below its starting depth. */
  lemma {:induction false} RenderStays(v: Value)
    requires Ok(v)
    ensures Stays(Render(v))
    decreases v
  {
    match v
    case Scalar(token) => StaysFlat(token);
    case Str(items) => QuotedStays(items);
    case Arr(pad, es) =>
      StaysFlat(pad);
      ElemsStay(es);
      StaysConcat(pad, RenderElems(es));
      StaysNested(LBRACK, pad + RenderElems(es), RBRACK);
    case Obj(pad, ms) =>
      ObjectBodyStays(v);
      StaysNested(LBRACE, pad + RenderMembers(ms), RBRACE);
  }

  lemma {:induction false} ObjectBodyStays(v: Value)
    requires v.Obj? && Ok(v)
    ensures Stays(v.pad + RenderMembers(v.members))
    decreases v, 0
  {
    StaysFlat(v.pad);
    MembersStay(v.members);
    StaysConcat(v.pad, RenderMembers(v.members));
  }

  lemma {:induction false} ElemsStay(es: Elems)
    requires OkElems(es)
    ensures Stays(RenderElems(es))
    decreases es
  {
    match es
    case NoElems => StaysFlat([]);
    case Elem(before, v, after, rest) =>
      ElemsStay(rest);
      StaysFlat([COMMA]);
      StaysFlat([]);
      StaysConcat([COMMA], RenderElems(rest));
      var more := if rest.NoElems? then [] else [COMMA] + RenderElems(rest);
      StaysFlat(after);
      StaysConcat(after, more);
      RenderStays(v);
      StaysConcat(Render(v), after + more);
      StaysFlat(before);
      StaysConcat(before, Render(v) + (after + more));
  }

  lemma {:induction false} MembersStay(ms: Members)
    requires OkMembers(ms)
    ensures Stays(RenderMembers(ms))
    decreases ms
  {
    match ms
    case NoMembers => StaysFlat([]);
    case Member(before, key, mid, gap, v, after, rest) =>
      MembersStay(rest);
      StaysFlat([COMMA]);
      StaysFlat([]);
      StaysConcat([COMMA], RenderMembers(rest));
      var more := if rest.NoMembers? then [] else [COMMA] + RenderMembers(rest);
      StaysFlat(after);
      StaysConcat(after, more);
      RenderStays(v);
      StaysConcat(Render(v), after + more);
      var value := Render(v) + (after + more);
      StaysFlat(gap);
      StaysConcat(gap, value);
      StaysFlat([COLON]);
      StaysConcat([COLON], gap + value);
      StaysFlat(mid);
      StaysConcat(mid, [COLON] + (gap + value));
      QuotedStays(key);
      StaysConcat(Quoted(key), mid + ([COLON] + (gap + value)));
      StaysFlat(before);
      StaysConcat(before, Quoted(key) + (mid + ([COLON] + (gap + value))));
  }

  // ---------- what this says about records ----------

  /** A JSON text closes every bracket and string it opens, and none of its prefixes closes more than it opened. */
  lemma {:induction false} JsonTextIsBalanced(t: bytes)
    requires IsJsonText(t)
    ensures ReadAll(Scan(0, Outside), t) == Scan(0, Outside)
    ensures forall k :: 0 <= k <= |t| ==> ReadAll(Scan(0, Outside), t[..k]).depth >= 0
  {
    var before, v, after :| Derives(before, v, after, t);
    StaysFlat(before);
    StaysFlat(after);
    RenderStays(v);
    StaysConcat(Render(v), after);
    StaysConcat(before, Render(v) + after);
    assert StaysFrom(t, 0);
  }

  /** A record is itself a JSON text, so the event reader returns it. */
  lemma {:induction false} RecordIsJsonText(r: bytes)
    requires IsRecord(r)
    ensures IsJsonText(r)
  {
    var v :| Prints(v, r);
    assert r == [] + (Render(v) + []);
    assert Derives([], v, [], r);
  }

  /** Printed objects are prefix-free: no proper nonempty prefix parses, whatever the parser allows. */
  lemma {:induction false} TornRecordIsNotJson(p: bytes, r: bytes)
    requires IsRecord(r) && p < r && p != []
    ensures !IsJsonText(p)
  {
    var v :| Prints(v, r);
    ObjectBodyStays(v);
    var body := v.pad + RenderMembers(v.members);
    OpenInside(LBRACE, body, RBRACE, 0, |p|);
    assert p == ([LBRACE] + body + [RBRACE])[..|p|];
    if IsJsonText(p) {
      JsonTextIsBalanced(p);
    }
  }

  ghost predicate Printable(s: bytes) {
    forall i :: 0 <= i < |s| ==> 32 <= s[i]
  }

  lemma {:induction false} ItemsPrintable(items: seq<Item>)
    requires OkItems(items)
    ensures Printable(RenderItems(items))
    decreases |items|
  {
    if items != [] {
      ItemsPrintable(items[1..]);
    }
  }

  lemma {:induction false} CompactPrintable(v: Value)
    requires Ok(v) && Compact(v)
    ensures Printable(Render(v))
    decreases v
  {
    match v
    case Scalar(_) =>
    case Str(items) => ItemsPrintable(items);
    case Arr(_, es) => CompactElemsPrintable(es);
    case Obj(_, ms) => CompactMembersPrintable(ms);
  }

  lemma {:induction false} CompactElemsPrintable(es: Elems)
    requires OkElems(es) && CompactElems(es)
    ensures Printable(RenderElems(es))
    decreases es
  {
    if es.Elem? {
      CompactPrintable(es.v);
      CompactElemsPrintable(es.rest);
    }
  }

  lemma {:induction false} CompactMembersPrintable(ms: Members)
    requires OkMembers(ms) && CompactMembers(ms)
    ensures Printable(RenderMembers(ms))
    decreases ms
  {
    if ms.Member? {
      ItemsPrintable(ms.key);
      CompactPrintable(ms.v);
      CompactMembersPrintable(ms.rest);
    }
  }

  /** A record contains no newline, opens with a brace and has at least two bytes. */
  lemma {:induction false} RecordShape(r: bytes)
    requires IsRecord(r)
    ensures NL !in r && |r| >= 2 && r[0] == LBRACE
  {
    var v :| Prints(v, r);
    CompactPrintable(v);
  }
}
