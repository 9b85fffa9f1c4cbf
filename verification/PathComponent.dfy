/**
 The request-derived path component: repeated percent-decoding and what it can never hide.
 A string is a sequence of characters.  Decoding an escape below 128 gives that ASCII character; a
 maximal run of higher bytes is decoded as UTF-8 with replacement by `repair`, of which only two facts
 matter: it yields no more characters than bytes, and none of them is ASCII.
 */
module PathComponent {

  type Repair = seq<int> -> string

  ghost predicate GoodRepair(repair: Repair) {
    forall run: seq<int> ::
      |repair(run)| <= |run| && forall i :: 0 <= i < |repair(run)| ==> repair(run)[i] as int >= 128
  }

  // ---------- percent-decoding ----------

  predicate IsHex(c: char) {
    '0' <= c <= '9' || 'a' <= c <= 'f' || 'A' <= c <= 'F'
  }

  function HexValue(c: char): (v: int)
    requires IsHex(c)
    ensures 0 <= v < 16
  {
    if c <= '9' then c as int - '0' as int
    else if c <= 'F' then c as int - 'A' as int + 10
    else c as int - 'a' as int + 10
  }

  predicate StartsEscape(s: string) {
    |s| >= 3 && s[0] == '%' && IsHex(s[1]) && IsHex(s[2])
  }

  function EscapeValue(s: string): (v: int)
    requires StartsEscape(s)
    ensures 0 <= v < 256
  {
    16 * HexValue(s[1]) + HexValue(s[2])
  }

  /** `urllib.parse.unquote` of `s`, with `run` the high bytes decoded just before it. */
  function UnquoteFrom(repair: Repair, run: seq<int>, s: string): string
    decreases |s|
  {
    if s == [] then repair(run)
    else if StartsEscape(s) then
      var v := EscapeValue(s);
      if v >= 128 then UnquoteFrom(repair, run + [v], s[3..])
      else repair(run) + [v as char] + UnquoteFrom(repair, [], s[3..])
    else repair(run) + [s[0]] + UnquoteFrom(repair, [], s[1..])
  }

  function Unquote(repair: Repair, s: string): string {
    UnquoteFrom(repair, [], s)
  }

  /** `n` decodings of `s`. */
  function Decoded(repair: Repair, s: string, n: nat): string {
    if n == 0 then s else Unquote(repair, Decoded(repair, s, n - 1))
  }

  predicate HasEscape(s: string)
    decreases |s|
  {
    s != [] && (StartsEscape(s) || HasEscape(s[1..]))
  }

  lemma {:induction false} WithoutEscape(repair: Repair, run: seq<int>, s: string)
    requires GoodRepair(repair) && !HasEscape(s)
    ensures UnquoteFrom(repair, run, s) == repair(run) + s
    decreases |s|
  {
    if s == [] {
      assert repair(run) + s == repair(run);
    } else {
      WithoutEscape(repair, [], s[1..]);
      assert |repair([])| <= 0;
      assert repair(run) + [s[0]] + ([] + s[1..]) == repair(run) + s;
    }
  }

  lemma {:induction false} WithEscape(repair: Repair, run: seq<int>, s: string)
    requires GoodRepair(repair)
    ensures |UnquoteFrom(repair, run, s)| <= |run| + |s|
    ensures HasEscape(s) ==> |UnquoteFrom(repair, run, s)| + 2 <= |run| + |s|
    decreases |s|
  {
    assert |repair(run)| <= |run|;
    if s == [] {
    } else if StartsEscape(s) {
      var v := EscapeValue(s);
      WithEscape(repair, if v >= 128 then run + [v] else [], s[3..]);
    } else {
      WithEscape(repair, [], s[1..]);
    }
  }

  /** Decoding strictly shortens every string it changes; it is the identity exactly on strings without an escape. */
  lemma {:induction false} DecodingShortens(repair: Repair, s: string)
    requires GoodRepair(repair)
    ensures Unquote(repair, s) == s || |Unquote(repair, s)| < |s|
    ensures Unquote(repair, s) == s <==> !HasEscape(s)
  {
    WithEscape(repair, [], s);
    if !HasEscape(s) {
      WithoutEscape(repair, [], s);
      assert |repair([])| <= 0;
      assert [] + s == s;
    }
  }

  lemma {:induction false} NoPercentNoEscape(s: string)
    requires '%' !in s
    ensures !HasEscape(s)
    decreases |s|
  {
    if s != [] {
      NoPercentNoEscape(s[1..]);
    }
  }

  /** So decoding settles for every string, after at most as many rounds as it has characters. */
  lemma {:induction false} DecodingSettles(repair: Repair, s: string, n: nat)
    requires GoodRepair(repair)
    ensures Decoded(repair, s, n + 1) == Decoded(repair, s, n) || n + |Decoded(repair, s, n + 1)| < |s|
    decreases n
  {
    DecodingShortens(repair, Decoded(repair, s, n));
    if n > 0 {
      DecodingSettles(repair, s, n - 1);
    }
  }

  lemma {:induction false} Settled(repair: Repair, s: string, k: nat, n: nat)
    requires k <= n && Decoded(repair, s, k + 1) == Decoded(repair, s, k)
    ensures Decoded(repair, s, n) == Decoded(repair, s, k)
    decreases n
  {
    if k < n {
      Settled(repair, s, k, n - 1);
    }
  }

  // ---------- what decoding yields, against an encoder ----------

  const UPPER := "0123456789ABCDEF"
  const LOWER := "0123456789abcdef"

  /** The percent-encoding of one byte, with the digits of a table. */
  function Escaped(upper: bool, v: int): string
    requires 0 <= v < 256
  {
    var digits := if upper then UPPER else LOWER;
    ['%', digits[v / 16], digits[v % 16]]
  }

  predicate Ascii(s: string) {
    forall i :: 0 <= i < |s| ==> s[i] as int < 128
  }

  /** Every character written as an escape. */
  function Encoded(upper: bool, t: string): string
    requires Ascii(t)
  {
    if t == "" then "" else Escaped(upper, t[0] as int) + Encoded(upper, t[1..])
  }

  lemma {:induction false} DigitReads(upper: bool, v: int)
    requires 0 <= v < 16
    ensures var c := (if upper then UPPER else LOWER)[v]; IsHex(c) && HexValue(c) == v
  {
    if upper {
      assert UPPER[v] == if v < 10 then '0' + v as char else 'A' + (v - 10) as char;
    } else {
      assert LOWER[v] == if v < 10 then '0' + v as char else 'a' + (v - 10) as char;
    }
  }

  /** Nothing but the digits of the two tables can make an escape. */
  lemma {:induction false} HexDigitsExact(c: char)
    ensures IsHex(c) <==> c in UPPER || c in LOWER
  {
    if IsHex(c) {
      var v := HexValue(c);
      assert UPPER[v] == c || LOWER[v] == c;
    }
  }

  /** An escape stands for the byte it encodes. */
  lemma {:induction false} EscapeReads(upper: bool, v: int, rest: string)
    requires 0 <= v < 256
    ensures var s := Escaped(upper, v) + rest;
      StartsEscape(s) && EscapeValue(s) == v && s[3..] == rest
  {
    DigitReads(upper, v / 16);
    DigitReads(upper, v % 16);
  }

  /** A percent sign ends whatever might have been an escape before it. */
  lemma {:induction false} ContextStart(a: string, e: string, b: string)
    requires a != "" && e != "" && e[0] == '%'
    ensures var s := a + e + b;
      && s[0] == a[0] && s[1..] == a[1..] + e + b && (StartsEscape(s) <==> StartsEscape(a))
      && (StartsEscape(a) ==> EscapeValue(s) == EscapeValue(a) && s[3..] == a[3..] + e + b)
  {
    assert (a + e + b)[|a|] == '%';
  }

  /** Wherever it stands, an escape for an ASCII character is decoded to that character. */
  lemma {:induction false} EscapeInContext(
    repair: Repair, run: seq<int>, a: string, upper: bool, v: int, b: string)
    requires GoodRepair(repair) && 0 <= v < 128
    ensures UnquoteFrom(repair, run, a + Escaped(upper, v) + b)
         == UnquoteFrom(repair, run, a) + ([v as char] + UnquoteFrom(repair, [], b))
    decreases |a|
  {
    var e := Escaped(upper, v);
    var tail := [v as char] + UnquoteFrom(repair, [], b);
    if a == "" {
      EscapeReads(upper, v, b);
      assert a + e + b == e + b;
      assert repair(run) + [v as char] + UnquoteFrom(repair, [], b) == repair(run) + tail;
    } else {
      ContextStart(a, e, b);
      if StartsEscape(a) {
        var w := EscapeValue(a);
        EscapeInContext(repair, if w >= 128 then run + [w] else [], a[3..], upper, v, b);
        if w < 128 {
          Regroup3(repair(run), [w as char], UnquoteFrom(repair, [], a[3..]), tail);
        }
      } else {
        EscapeInContext(repair, [], a[1..], upper, v, b);
        Regroup3(repair(run), [a[0]], UnquoteFrom(repair, [], a[1..]), tail);
      }
    }
  }

  lemma {:induction false} Regroup3(a: string, b: string, c: string, d: string)
    ensures a + b + (c + d) == (a + b + c) + d
  {
  }

  /** The escapes of a run of bytes. */
  function EncodedBytes(upper: bool, vs: seq<int>): string
    requires forall i :: 0 <= i < |vs| ==> 0 <= vs[i] < 256
  {
    if vs == [] then "" else Escaped(upper, vs[0]) + EncodedBytes(upper, vs[1..])
  }

  /** A run of higher bytes is handed to the repair as it is. */
  lemma {:induction false} HighBytesDecode(repair: Repair, run: seq<int>, upper: bool, vs: seq<int>)
    requires forall i :: 0 <= i < |vs| ==> 128 <= vs[i] < 256
    ensures UnquoteFrom(repair, run, EncodedBytes(upper, vs)) == repair(run + vs)
    decreases |vs|
  {
    if vs == [] {
      assert run + vs == run;
    } else {
      EscapeReads(upper, vs[0], EncodedBytes(upper, vs[1..]));
      HighBytesDecode(repair, run + [vs[0]], upper, vs[1..]);
      assert run + [vs[0]] + vs[1..] == run + vs;
    }
  }

  /** `e` is `t` with any of its characters written as escapes, upper or lower case; a percent sign always is. */
  predicate Disguises(e: string, t: string)
    decreases |t|
  {
    if t == "" then e == ""
    else
      || (t[0] != '%' && e != "" && e[0] == t[0] && Disguises(e[1..], t[1..]))
      || (t[0] as int < 128 && |e| >= 3 && e[..3] in [Escaped(true, t[0] as int), Escaped(false, t[0] as int)]
          && Disguises(e[3..], t[1..]))
  }

  /** Decoding takes every disguise off. */
  lemma {:induction false} DisguiseDecodes(repair: Repair, e: string, t: string)
    requires GoodRepair(repair) && Disguises(e, t)
    ensures Unquote(repair, e) == t
    decreases |t|
  {
    assert |repair([])| <= 0;
    if t != "" {
      if t[0] != '%' && e != "" && e[0] == t[0] && Disguises(e[1..], t[1..]) {
        DisguiseDecodes(repair, e[1..], t[1..]);
      } else {
        var upper := e[..3] == Escaped(true, t[0] as int);
        assert e == Escaped(upper, t[0] as int) + e[3..];
        EscapeReads(upper, t[0] as int, e[3..]);
        DisguiseDecodes(repair, e[3..], t[1..]);
      }
      assert [t[0]] + t[1..] == t;
    }
  }

  lemma {:induction false} EncodedDisguises(upper: bool, t: string)
    requires Ascii(t)
    ensures Disguises(Encoded(upper, t), t)
    decreases |t|
  {
    if t != "" {
      var e := Encoded(upper, t);
      assert e[..3] == Escaped(upper, t[0] as int) && e[3..] == Encoded(upper, t[1..]);
      EncodedDisguises(upper, t[1..]);
    }
  }

  /** Decoding inverts encoding. */
  lemma {:induction false} EncodedDecodes(repair: Repair, upper: bool, t: string)
    requires GoodRepair(repair) && Ascii(t)
    ensures Unquote(repair, Encoded(upper, t)) == t
  {
    EncodedDisguises(upper, t);
    DisguiseDecodes(repair, Encoded(upper, t), t);
  }

  /** `t` under `n` disguises, each one over the last. */
  ghost predicate Hides(e: string, t: string, n: nat)
    decreases n
  {
    if n == 0 then e == t else exists m :: Disguises(e, m) && Hides(m, t, n - 1)
  }

  lemma {:induction false} DecodedFirst(repair: Repair, s: string, n: nat)
    ensures Decoded(repair, s, n + 1) == Decoded(repair, Unquote(repair, s), n)
    decreases n
  {
    if n > 0 {
      DecodedFirst(repair, s, n - 1);
    } else {
      assert Decoded(repair, s, 0) == s;
    }
  }

  /** As many decodings bring the hidden text to light. */
  lemma {:induction false} HiddenShowsUp(repair: Repair, e: string, t: string, n: nat)
    requires GoodRepair(repair) && Hides(e, t, n)
    ensures Decoded(repair, e, n) == t
    decreases n
  {
    if n > 0 {
      var m :| Disguises(e, m) && Hides(m, t, n - 1);
      DisguiseDecodes(repair, e, m);
      DecodedFirst(repair, e, n - 1);
      HiddenShowsUp(repair, m, t, n - 1);
    }
  }

  lemma {:induction false} EncodedAscii(upper: bool, t: string)
    requires Ascii(t)
    ensures Ascii(Encoded(upper, t))
    decreases |t|
  {
    if t != "" {
      EncodedAscii(upper, t[1..]);
      DigitReads(upper, t[0] as int / 16);
      DigitReads(upper, t[0] as int % 16);
    }
  }

  /** `t` encoded once, twice, and three times, hides `t`. */
  lemma {:induction false} EncodedHides(upper: bool, t: string)
    requires Ascii(t)
    ensures var once := Encoded(upper, t);
      && Ascii(once) && Hides(once, t, 1)
      && Ascii(Encoded(upper, once)) && Hides(Encoded(upper, once), t, 2)
      && Hides(Encoded(upper, Encoded(upper, once)), t, 3)
  {
    var once := Encoded(upper, t);
    EncodedAscii(upper, t);
    EncodedAscii(upper, once);
    EncodedDisguises(upper, t);
    EncodedDisguises(upper, once);
    EncodedDisguises(upper, Encoded(upper, once));
    assert Hides(t, t, 0);
    assert Hides(once, t, 1);
    assert Hides(Encoded(upper, once), t, 2);
  }

  // ---------- what a component may not contain ----------

  const DECODE_ROUNDS := 4

  datatype Reason =
    | EmptyPath | ControlCharacter | Backslash | AbsolutePath | QueryInPath | DotSegment | PathEscape
    | DestinationChanged | InvalidBaseUrl

  datatype Verdict = Accepted | Rejected(reason: Reason)

  predicate Forbidden(c: char) {
    c == '\\' || c == '?' || c == '#'
  }

  predicate Control(c: char) {
    c < ' ' || c as int == 127
  }

  function ReasonFor(c: char): Reason {
    if c == '\\' then Backslash else QueryInPath
  }

  /** The first segment and, behind its slash, the others: `str.split("/")`. */
  function Segments(s: string): (r: seq<string>)
    ensures |r| >= 1
  {
    if s == [] then [[]]
    else
      var rest := Segments(s[1..]);
      if s[0] == '/' then [[]] + rest else [[s[0]] + rest[0]] + rest[1..]
  }

  function Rejoined(segments: seq<string>): string
    requires segments != []
  {
    if |segments| == 1 then segments[0] else segments[0] + "/" + Rejoined(segments[1..])
  }

  /** Splitting at the slashes: no segment holds one, and with slashes in between they are the string again. */
  lemma {:induction false} SegmentsRejoin(s: string)
    ensures Rejoined(Segments(s)) == s
    ensures forall i :: 0 <= i < |Segments(s)| ==> '/' !in Segments(s)[i]
    decreases |s|
  {
    if s != [] {
      SegmentsRejoin(s[1..]);
      var rest := Segments(s[1..]);
      assert [s[0]] + s[1..] == s;
      if s[0] == '/' {
        assert ([[]] + rest)[1..] == rest;
        assert [] + "/" + s[1..] == s;
      } else {
        var first := [s[0]] + rest[0];
        assert ([first] + rest[1..])[1..] == rest[1..];
        if |rest| > 1 {
          assert first + "/" + Rejoined(rest[1..]) == [s[0]] + (rest[0] + "/" + Rejoined(rest[1..]));
        }
      }
    }
  }

  predicate Dots(segment: string) {
    segment == "." || segment == ".."
  }

  predicate NoDotSegments(s: string) {
    forall i :: 0 <= i < |Segments(s)| ==> !Dots(Segments(s)[i])
  }

  predicate NoneForbidden(s: string) {
    forall i :: 0 <= i < |s| ==> !Forbidden(s[i])
  }

  predicate Relative(s: string) {
    s == [] || s[0] != '/'
  }

  predicate Safe(s: string) {
    NoneForbidden(s) && Relative(s) && NoDotSegments(s)
  }

  /** The leftmost character of `s` that is not allowed in any decoding. */
  predicate FirstForbidden(s: string, i: nat) {
    i < |s| && Forbidden(s[i]) && NoneForbidden(s[..i])
  }

  /** `_check_segments`. */
  method CheckSegments(candidate: string) returns (v: Verdict)
    ensures v.Accepted? <==> Safe(candidate)
    ensures v.Rejected? ==> v.reason in {Backslash, QueryInPath, AbsolutePath, DotSegment}
    ensures v == Rejected(DotSegment) <==> NoneForbidden(candidate) && Relative(candidate) && !NoDotSegments(candidate)
    ensures v == Rejected(AbsolutePath) <==> NoneForbidden(candidate) && !Relative(candidate)
    ensures v == Rejected(Backslash) <==> exists i: nat :: FirstForbidden(candidate, i) && candidate[i] == '\\'
    ensures v == Rejected(QueryInPath) <==> exists i: nat :: FirstForbidden(candidate, i) && candidate[i] in {'?', '#'}
  {
    for i := 0 to |candidate|
      invariant forall j :: 0 <= j < i ==> !Forbidden(candidate[j])
    {
      if Forbidden(candidate[i]) {
        assert FirstForbidden(candidate, i);
        return Rejected(ReasonFor(candidate[i]));
      }
    }
    if candidate != [] && candidate[0] == '/' {
      return Rejected(AbsolutePath);
    }
    var segments := Segments(candidate);
    for i := 0 to |segments|
      invariant forall j :: 0 <= j < i ==> !Dots(segments[j])
    {
      if Dots(segments[i]) {
        return Rejected(DotSegment);
      }
    }
    return Accepted;
  }

  /** The candidates of the bounded rounds are safe and one of them is a decoding fixpoint. */
  ghost predicate SettlesSafely(repair: Repair, path: string) {
    exists k: nat :: k < DECODE_ROUNDS && SettlesAt(repair, path, k)
  }

  ghost predicate SettlesAt(repair: Repair, path: string, k: nat) {
    && Decoded(repair, path, k + 1) == Decoded(repair, path, k)
    && forall i: nat :: i <= k ==> Safe(Decoded(repair, path, i))
  }

  predicate NoneControl(s: string) {
    forall i :: 0 <= i < |s| ==> !Control(s[i])
  }

  /** The scan of the raw path before any decoding. */
  method CheckCharacters(path: string) returns (v: Verdict)
    ensures v.Accepted? <==> NoneForbidden(path) && NoneControl(path)
    ensures v.Rejected? ==> v.reason in {Backslash, QueryInPath, ControlCharacter}
  {
    for i := 0 to |path|
      invariant forall j :: 0 <= j < i ==> !Forbidden(path[j]) && !Control(path[j])
    {
      if Forbidden(path[i]) {
        return Rejected(ReasonFor(path[i]));
      }
      if Control(path[i]) {
        return Rejected(ControlCharacter);
      }
    }
    return Accepted;
  }

  /** `_check_component`. */
  method CheckComponent(repair: Repair, path: string) returns (v: Verdict)
    requires GoodRepair(repair)
    ensures v.Accepted? <==> path != [] && NoneControl(path) && SettledInTime(repair, path) && AlwaysSafe(repair, path)
    ensures v == Rejected(EmptyPath) <==> path == []
    ensures v.Rejected? ==> v.reason !in {DestinationChanged, InvalidBaseUrl}
    ensures v == Rejected(PathEscape) ==>
      (forall i: nat :: i < DECODE_ROUNDS ==>
        Safe(Decoded(repair, path, i)) && Decoded(repair, path, i + 1) != Decoded(repair, path, i))
    ensures forall t: string, n: nat :: Hides(path, t, n) && !Safe(t) ==> v.Rejected?
    ensures v.Accepted? ==>
      && path[0] != '/' && "." !in Segments(path) && ".." !in Segments(path)
      && forall c :: c in path ==> 32 <= c as int != 127 && c !in {'\\', '?', '#'}
  {
    AcceptedForEveryDecoding(repair, path);
    UnsafeIsNotHidden(repair, path);
    if path == [] {
      return Rejected(EmptyPath);
    }
    assert SettlesSafely(repair, path) ==> Safe(Decoded(repair, path, 0));
    if path[0] == '/' {
      return Rejected(AbsolutePath);
    }
    v := CheckCharacters(path);
    if v.Rejected? {
      return;
    }
    var candidate := path;
    for round := 0 to DECODE_ROUNDS
      invariant candidate == Decoded(repair, path, round)
      invariant forall i: nat :: i < round ==>
        Safe(Decoded(repair, path, i)) && Decoded(repair, path, i + 1) != Decoded(repair, path, i)
    {
      v := CheckSegments(candidate);
      if v.Rejected? {
        return;
      }
      if '%' !in candidate {
        NoPercentNoEscape(candidate);
        DecodingShortens(repair, candidate);
        assert SettlesAt(repair, path, round);
        return Accepted;
      }
      var decoded := Unquote(repair, candidate);
      if decoded == candidate {
        assert SettlesAt(repair, path, round);
        return Accepted;
      }
      candidate := decoded;
    }
    return Rejected(PathEscape);
  }

  /** A further decoding after the checked rounds changes nothing. */
  predicate SettledInTime(repair: Repair, path: string) {
    Decoded(repair, path, 4) == Decoded(repair, path, 3)
  }

  /** However often it is decoded, no dot segment, leading slash, backslash, question mark or hash shows up. */
  ghost predicate AlwaysSafe(repair: Repair, path: string) {
    forall n: nat :: Safe(Decoded(repair, path, n))
  }

  /**
   What acceptance means: a nonempty component without control characters is accepted exactly when it
   settles within the checked rounds and no number of further decodings, however many, is unsafe.
   */
  lemma {:induction false} AcceptedForEveryDecoding(repair: Repair, path: string)
    requires GoodRepair(repair)
    ensures SettlesSafely(repair, path) <==> SettledInTime(repair, path) && AlwaysSafe(repair, path)
  {
    if SettlesSafely(repair, path) {
      SafeForever(repair, path);
    }
    if SettledInTime(repair, path) && AlwaysSafe(repair, path) {
      assert SettlesAt(repair, path, DECODE_ROUNDS - 1);
    }
  }

  lemma {:induction false} SafeForever(repair: Repair, path: string)
    requires SettlesSafely(repair, path)
    ensures SettledInTime(repair, path) && AlwaysSafe(repair, path)
  {
    var k: nat :| k < DECODE_ROUNDS && SettlesAt(repair, path, k);
    Settled(repair, path, k, DECODE_ROUNDS);
    Settled(repair, path, k, DECODE_ROUNDS - 1);
    forall n: nat ensures Safe(Decoded(repair, path, n)) {
      if k < n {
        Settled(repair, path, k, n);
      }
      assert Safe(Decoded(repair, path, k));
    }
  }

  /** What is safe under every decoding hides nothing unsafe, under any number of disguises. */
  lemma {:induction false} UnsafeIsNotHidden(repair: Repair, path: string)
    requires GoodRepair(repair)
    ensures AlwaysSafe(repair, path) ==> forall t: string, n: nat :: Hides(path, t, n) ==> Safe(t)
  {
    if AlwaysSafe(repair, path) {
      forall t: string, n: nat | Hides(path, t, n) ensures Safe(t) {
        HiddenShowsUp(repair, path, t, n);
        assert Safe(Decoded(repair, path, n));
      }
    }
  }
}
