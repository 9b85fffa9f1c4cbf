/** Assembling the upstream URL and proving it stays where the configuration put it. */
module UpstreamUrl {
  import opened Options
  import opened PathComponent
  import opened Sequences

  // ---------- dot-segment removal, section 5.2.4 of RFC 3986 ----------

  /** The length of the first path segment, including an initial slash, up to the next slash. */
  function FirstSegment(s: string): (n: nat)
    requires s != []
    ensures 1 <= n <= |s| && (n < |s| ==> s[n] == '/')
    ensures forall i :: 1 <= i < n ==> s[i] != '/'
  {
    if |s| == 1 || s[1] == '/' then 1
    else
      var rest := FirstSegment(s[1..]);
      assert forall i :: 2 <= i < 1 + rest ==> s[i] == s[1..][i - 1];
      1 + rest
  }

  /** Everything before the last slash, or nothing. */
  function DropLastSegment(out: string): string {
    if out == [] then []
    else if out[|out| - 1] == '/' then out[..|out| - 1]
    else DropLastSegment(out[..|out| - 1])
  }

  predicate Rule2A(s: string) {
    (|s| >= 2 && s[0] == '.' && s[1] == '/') || (|s| >= 3 && s[0] == '.' && s[1] == '.' && s[2] == '/')
  }

  /** A leading "/./", or all of "/.". */
  predicate Rule2B(s: string) {
    |s| >= 2 && s[0] == '/' && s[1] == '.' && (|s| == 2 || s[2] == '/')
  }

  /** A leading "/../", or all of "/..". */
  predicate Rule2C(s: string) {
    |s| >= 3 && s[0] == '/' && s[1] == '.' && s[2] == '.' && (|s| == 3 || s[3] == '/')
  }

  /** The rewriting rules 2A to 2E, with the input and output buffers. */
  function RemoveDots(input: string, out: string): string
    decreases |input|
  {
    if input == [] then out
    else if Rule2A(input) then RemoveDots(if input[1] == '/' then input[2..] else input[3..], out)
    else if Rule2B(input) then RemoveDots(if |input| == 2 then "/" else input[2..], out)
    else if Rule2C(input) then RemoveDots(if |input| == 3 then "/" else input[3..], DropLastSegment(out))
    else if input == "." || input == ".." then out
    else
      var n := FirstSegment(input);
      RemoveDots(input[n..], out + input[..n])
  }

  lemma {:induction false} SegmentsAppend(a: string, b: string)
    ensures Segments(a + "/" + b) == Segments(a) + Segments(b)
    decreases |a|
  {
    if a == [] {
      assert a + "/" + b == "/" + b;
      assert ("/" + b)[1..] == b;
    } else {
      assert (a + "/" + b)[1..] == a[1..] + "/" + b;
      SegmentsAppend(a[1..], b);
    }
  }

  lemma {:induction false} SlashFreeIsOneSegment(a: string)
    requires '/' !in a
    ensures Segments(a) == [a]
    decreases |a|
  {
    if a != [] {
      SlashFreeIsOneSegment(a[1..]);
      assert [a[0]] + a[1..] == a;
    }
  }

  /** The dot rules fire only on a first segment that is a dot segment. */
  lemma {:induction false} RulesMeanDots(s: string)
    requires s != [] && s[0] == '/'
    ensures Rule2B(s) || Rule2C(s) ==> Dots(s[1..FirstSegment(s)])
  {
    var n := FirstSegment(s);
    if Rule2B(s) {
      assert n == 2 && s[1..n] == [s[1]];
    } else if Rule2C(s) {
      assert n == 3 && s[1..n] == [s[1], s[2]];
    }
  }

  lemma {:induction false} FirstSegmentIgnoresHead(s: string, t: string)
    requires s != [] && t != [] && s[1..] == t[1..]
    ensures FirstSegment(s) == FirstSegment(t)
  {
    assert |s| > 1 ==> s[1] == s[1..][0] == t[1..][0] == t[1];
  }

  /** The first segment of "/" + c is the first part of splitting c at slashes. */
  lemma {:induction false} FirstSegmentOf(c: string)
    ensures
      var n := FirstSegment("/" + c);
      && Segments(c)[0] == c[..n - 1]
      && (if n <= |c| then c[n - 1] == '/' && Segments(c)[1..] == Segments(c[n..]) else Segments(c)[1..] == [])
    decreases |c|
  {
    var s := "/" + c;
    assert s[1..] == c;
    if c != [] && c[0] != '/' {
      var c' := c[1..];
      FirstSegmentOf(c');
      FirstSegmentIgnoresHead(c, "/" + c');
      var n := FirstSegment("/" + c');
      assert FirstSegment(s) == n + 1;
      assert [c[0]] + c'[..n - 1] == c[..n];
      if n <= |c'| {
        assert c'[n..] == c[n + 1..];
      }
    }
  }

  // ---------- the same, segment by segment ----------

  function Popped(stack: seq<string>): seq<string> {
    if stack == [] then [] else stack[..|stack| - 1]
  }

  /** "." stays where it is, ".." goes up, anything else goes down. */
  function Moved(stack: seq<string>, s: string): seq<string> {
    if s == "." then stack else if s == ".." then Popped(stack) else stack + [s]
  }

  /** One segment after the other; a path that ends in a dot segment ends in a slash. */
  function Resolve(stack: seq<string>, segments: seq<string>): seq<string>
    requires segments != []
    decreases |segments|
  {
    var s, next := segments[0], Moved(stack, segments[0]);
    if |segments| > 1 then Resolve(next, segments[1..]) else if Dots(s) then next + [""] else next
  }

  /** Every segment behind its slash. */
  function Slashed(stack: seq<string>): string {
    if stack == [] then "" else Slashed(stack[..|stack| - 1]) + ("/" + stack[|stack| - 1])
  }

  ghost predicate SlashFree(stack: seq<string>) {
    forall i :: 0 <= i < |stack| ==> '/' !in stack[i]
  }

  lemma {:induction false} SlashedSnoc(stack: seq<string>, s: string)
    ensures Slashed(stack + [s]) == Slashed(stack) + ("/" + s)
  {
    LastOfAppend(stack, s);
  }

  lemma {:induction false} DropBehindSlash(a: string, s: string)
    requires '/' !in s
    ensures DropLastSegment(a + ("/" + s)) == a
    decreases |s|
  {
    var t := a + ("/" + s);
    if s == "" {
      assert t[..|t| - 1] == a;
    } else {
      assert t[|t| - 1] == s[|s| - 1];
      assert t[..|t| - 1] == a + ("/" + s[..|s| - 1]);
      DropBehindSlash(a, s[..|s| - 1]);
    }
  }

  lemma {:induction false} DropPops(stack: seq<string>)
    requires SlashFree(stack)
    ensures DropLastSegment(Slashed(stack)) == Slashed(Popped(stack))
  {
    if stack != [] {
      DropBehindSlash(Slashed(stack[..|stack| - 1]), stack[|stack| - 1]);
    }
  }

  /** What the rules do with the first segment of a path: a slash follows it, or nothing. */
  lemma {:induction false} OneSegment(t: string, n: nat, out: string)
    requires n == FirstSegment("/" + t)
    ensures
      var s, rest := t[..n - 1], if n <= |t| then "/" + t[n..] else "";
      RemoveDots("/" + t, out) ==
        if s == "." then RemoveDots(if rest == "" then "/" else rest, out)
        else if s == ".." then RemoveDots(if rest == "" then "/" else rest, DropLastSegment(out))
        else RemoveDots(rest, out + ("/" + s))
  {
    var input := "/" + t;
    var s := t[..n - 1];
    assert input[..n] == "/" + s;
    assert n <= |t| ==> t[n - 1] == input[n] == '/' && input[n..] == "/" + t[n..];
    assert n > |t| ==> input[n..] == "";
    RulesMeanDots(input);
    assert input[1..n] == s;
    if s == "." {
      assert n == 2 && input[1] == s[0];
      assert Rule2B(input);
    } else if s == ".." {
      assert n == 3 && input[1] == s[0] && input[2] == s[1];
      assert Rule2C(input) && !Rule2B(input);
    } else {
      assert !Rule2B(input) && !Rule2C(input);
    }
  }

  lemma {:induction false} OnlySlash(out: string)
    ensures RemoveDots("/", out) == out + "/"
  {
    assert "/"[1..] == "" && "/"[..1] == "/";
    assert FirstSegment("/") == 1;
    assert RemoveDots("", out + "/") == out + "/";
  }

  /** The output after one segment is the stack after it. */
  lemma {:induction false} SlashedMoved(stack: seq<string>, s: string)
    requires SlashFree(stack) && '/' !in s
    ensures SlashFree(Moved(stack, s))
    ensures Slashed(Moved(stack, s)) ==
      if s == "." then Slashed(stack) else if s == ".." then DropLastSegment(Slashed(stack))
        else Slashed(stack) + ("/" + s)
  {
    DropPops(stack);
    SlashedSnoc(stack, s);
  }

  lemma {:induction false} FirstSlashFree(t: string)
    ensures '/' !in t[..FirstSegment("/" + t) - 1]
  {
    var n := FirstSegment("/" + t);
    forall i | 0 <= i < n - 1 ensures t[i] != '/' {
      assert ("/" + t)[i + 1] == t[i];
    }
  }

  /** Removing dot segments from a path is resolving its segments one after the other. */
  lemma {:induction false} DotsResolve(t: string, stack: seq<string>)
    requires SlashFree(stack)
    ensures RemoveDots("/" + t, Slashed(stack)) == Slashed(Resolve(stack, Segments(t)))
    decreases |t|
  {
    var n := FirstSegment("/" + t);
    var s := t[..n - 1];
    var next := Moved(stack, s);
    FirstSegmentOf(t);
    FirstSlashFree(t);
    OneSegment(t, n, Slashed(stack));
    SlashedMoved(stack, s);
    if n <= |t| {
      DotsResolve(t[n..], next);
    } else {
      assert Segments(t) == [s];
      OnlySlash(Slashed(next));
      SlashedSnoc(next, "");
      assert "/" + "" == "/";
      assert RemoveDots("", Slashed(next)) == Slashed(next);
    }
  }

  lemma {:induction false} Rejoin(out: string, c: string, n: nat)
    requires 1 <= n <= |c|
    ensures out + ("/" + c)[..n] + "/" + c[n..] == out + "/" + c[..n - 1] + "/" + c[n..]
    ensures c[n - 1] == '/' ==> out + ("/" + c)[..n] + "/" + c[n..] == out + "/" + c
  {
    assert ("/" + c)[..n] == "/" + c[..n - 1];
    if c[n - 1] == '/' {
      assert c == c[..n - 1] + "/" + c[n..];
    }
  }

  /** A path without dot segments passes through unchanged. */
  lemma {:induction false} DotFreePasses(c: string, out: string)
    requires NoDotSegments(c)
    ensures RemoveDots("/" + c, out) == out + "/" + c
    decreases |c|
  {
    var s := "/" + c;
    var n := FirstSegment(s);
    FirstSegmentOf(c);
    assert s[1..n] == c[..n - 1];
    RulesMeanDots(s);
    assert !Dots(Segments(c)[0]);
    if n == |s| {
      assert s[n..] == [] && out + s[..n] == out + "/" + c;
    } else {
      var rest := c[n..];
      assert NoDotSegments(rest) by {
        assert Segments(rest) == Segments(c)[1..];
      }
      assert s[n..] == "/" + rest;
      DotFreePasses(rest, out + s[..n]);
      Rejoin(out, c, n);
    }
  }

  /**
   Whatever precedes it, a component without dot segments comes out of dot-segment removal unchanged,
   behind exactly what the preceding path normalizes to.
   */
  lemma {:induction false} ComponentSurvives(y: string, c: string, out: string)
    requires NoDotSegments(c) && y != [] && y[0] == '/' && y[|y| - 1] == '/'
    ensures RemoveDots(y + c, out) == RemoveDots(y, out) + c
    decreases |y|
  {
    var s := y + c;
    if |y| == 1 {
      assert y == "/" && y[..1] == "/" && y[1..] == [];
      DotFreePasses(c, out);
      assert out + "/" + c == (out + "/") + c;
    } else {
      assert forall i :: 0 <= i < |y| ==> s[i] == y[i];
      assert Rule2B(s) <==> Rule2B(y);
      assert Rule2C(s) <==> Rule2C(y);
      if Rule2B(y) {
        TailFrom(y, c, 2);
        ComponentSurvives(y[2..], c, out);
      } else if Rule2C(y) {
        TailFrom(y, c, 3);
        ComponentSurvives(y[3..], c, DropLastSegment(out));
      } else {
        var n := FirstSegment(y);
        FirstSegmentLocal(y, c);
        TailFrom(y, c, n);
        ComponentSurvives(y[n..], c, out + y[..n]);
      }
    }
  }

  lemma {:induction false} FirstSegmentLocal(y: string, c: string)
    requires |y| >= 2 && y[|y| - 1] == '/'
    ensures FirstSegment(y + c) == FirstSegment(y) < |y|
    decreases |y|
  {
    if y[1] != '/' {
      assert (y + c)[1..] == y[1..] + c;
      FirstSegmentLocal(y[1..], c);
    }
  }

  // ---------- parsing, sections 3.1 to 3.5 and appendix B of RFC 3986 ----------

  function Until(s: string, stops: set<char>): (r: string)
    ensures r <= s
    ensures forall i :: 0 <= i < |r| ==> r[i] !in stops
    ensures |r| < |s| ==> s[|r|] in stops
  {
    if s == [] || s[0] in stops then [] else [s[0]] + Until(s[1..], stops)
  }

  lemma {:induction false} UntilStop(s: string, t: string, stops: set<char>)
    requires forall i :: 0 <= i < |s| ==> s[i] !in stops
    requires t != [] ==> t[0] in stops
    ensures Until(s + t, stops) == s
    decreases |s|
  {
    if s == [] {
      assert s + t == t;
    } else {
      assert (s + t)[1..] == s[1..] + t;
      UntilStop(s[1..], t, stops);
    }
  }

  /** `rest` is everything behind the authority. */
  datatype Url = Url(scheme: string, authority: string, rest: string) {
    function Path(): string {
      Until(rest, PATH_END)
    }

    function Query(): Option<string> {
      var front := Until(rest, {'#'});
      var p := Until(front, {'?'});
      if p == front then None else Some(front[|p| + 1..])
    }

    function Fragment(): Option<string> {
      var front := Until(rest, {'#'});
      if front == rest then None else Some(rest[|front| + 1..])
    }
  }

  const SCHEME_END := {':', '/', '?', '#'}
  const AUTHORITY_END := {'/', '?', '#'}
  const PATH_END := {'?', '#'}
  const SCHEME_MARK := "://"

  /** Nothing when there is no scheme or no host. */
  function Parse(url: string): Option<Url> {
    var scheme := Until(url, SCHEME_END);
    var rest := url[|scheme|..];
    if scheme == [] || !(SCHEME_MARK <= rest) then None
    else
      var authority := Until(rest[3..], AUTHORITY_END);
      if authority == [] then None else Some(Url(scheme, authority, rest[3 + |authority|..]))
  }

  ghost predicate WellFormed(u: Url) {
    && u.scheme != [] && u.authority != []
    && (forall i :: 0 <= i < |u.scheme| ==> u.scheme[i] !in SCHEME_END)
    && (forall i :: 0 <= i < |u.authority| ==> u.authority[i] !in AUTHORITY_END)
    && (u.rest != [] ==> u.rest[0] in AUTHORITY_END)
  }

  function Text(u: Url): string {
    u.scheme + SCHEME_MARK + u.authority + u.rest
  }

  /** A parsed URL is its parts put back together. */
  lemma {:induction false} ParseThenPrint(url: string)
    requires Parse(url).Some?
    ensures WellFormed(Parse(url).value) && Text(Parse(url).value) == url
  {
    var scheme := Until(url, SCHEME_END);
    var rest := url[|scheme|..];
    var authority := Until(rest[3..], AUTHORITY_END);
    var tail := rest[3 + |authority|..];
    CutAt(url, scheme);
    CutAt(rest, SCHEME_MARK);
    CutAt(rest[3..], authority);
    assert rest[3..][|authority|..] == tail;
    RegroupFour(scheme, SCHEME_MARK, authority, tail);
    assert tail != [] ==> tail[0] == rest[3..][|authority|];
  }

  lemma {:induction false} CutAt(s: string, head: string)
    requires head <= s
    ensures s == head + s[|head|..]
  {
  }

  lemma {:induction false} RegroupFour(a: string, b: string, c: string, d: string)
    ensures a + b + c + d == a + (b + (c + d))
  {
  }

  /** Conversely, well-formed parts put together parse to themselves. */
  lemma {:induction false} PrintThenParse(u: Url)
    requires WellFormed(u)
    ensures Parse(Text(u)) == Some(u)
  {
    var tail := u.authority + u.rest;
    RegroupFour(u.scheme, SCHEME_MARK, u.authority, u.rest);
    assert Text(u) == u.scheme + (SCHEME_MARK + tail);
    UntilStop(u.scheme, SCHEME_MARK + tail, SCHEME_END);
    CutBehind(u.scheme, SCHEME_MARK + tail);
    CutBehind(SCHEME_MARK, tail);
    UntilStop(u.authority, u.rest, AUTHORITY_END);
    CutBehind(u.authority, u.rest);
    SliceTwice(SCHEME_MARK + tail, 3, |u.authority|);
  }

  lemma {:induction false} CutBehind(a: string, b: string)
    ensures (a + b)[|a|..] == b && a <= a + b
  {
  }

  lemma {:induction false} SliceTwice(s: string, i: nat, k: nat)
    requires i + k <= |s|
    ensures s[i + k..] == s[i..][k..]
  {
  }

  // ---------- the builder ----------

  function StripSlashes(s: string): (r: string)
    ensures r <= s && (r != [] ==> r[|r| - 1] != '/')
    ensures forall i :: |r| <= i < |s| ==> s[i] == '/'
  {
    if s != [] && s[|s| - 1] == '/' then StripSlashes(s[..|s| - 1]) else s
  }

  lemma {:induction false} StripSuffix(a: string, s: string)
    requires a != [] && a[|a| - 1] != '/'
    ensures StripSlashes(a + s) == a + StripSlashes(s)
    decreases |s|
  {
    if s == [] {
      assert a + s == a && a + StripSlashes(s) == a;
    } else if s[|s| - 1] == '/' {
      assert (a + s)[..|a + s| - 1] == a + s[..|s| - 1];
      StripSuffix(a, s[..|s| - 1]);
    }
  }

  function Assemble(base: string, prefix: string, path: string): string {
    StripSlashes(base) + prefix + "/" + path
  }

  /** The path with its query, as the transport sends it. */
  function RawPath(u: Url): string {
    var p := RemoveDots(u.Path(), "");
    (if p == "" then "/" else p) + (match u.Query() case None => "" case Some(q) => "?" + q)
  }

  predicate Present(s: Option<string>) {
    s.Some? && s.value != ""
  }

  datatype Built = Built(url: Url) | Refused(reason: Reason)

  /** A fixed prefix is empty or a slash and segments without any special character. */
  predicate PlainPrefix(prefix: string) {
    && (prefix != [] ==> |prefix| >= 2 && prefix[0] == '/' && prefix[|prefix| - 1] != '/' && NoDotSegments(prefix[1..]))
    && forall i :: 0 <= i < |prefix| ==> prefix[i] !in PATH_END
  }

  // ---------- when it builds, and what it builds ----------

  /** A configured base the builder accepts components for: no query, no fragment, no dot segment in its path. */
  ghost predicate PlainBase(u: Url) {
    && WellFormed(u)
    && (forall i :: 0 <= i < |u.rest| ==> u.rest[i] !in PATH_END)
    && (u.rest != [] ==> NoDotSegments(u.rest[1..]))
  }

  lemma {:induction false} AssembledText(u: Url, prefix: string, path: string)
    requires WellFormed(u)
    ensures Assemble(Text(u), prefix, path)
         == Text(Url(u.scheme, u.authority, StripSlashes(u.rest) + prefix + "/" + path))
  {
    var front, stripped := u.scheme + SCHEME_MARK + u.authority, StripSlashes(u.rest);
    assert front[|front| - 1] == u.authority[|u.authority| - 1];
    StripSuffix(front, u.rest);
    RegroupFour(front, stripped, prefix, "/" + path);
    RegroupFour(stripped, prefix, "/", path);
  }

  /** What follows the authority still starts with a character that ends it. */
  lemma {:induction false} AssembledStart(u: Url, prefix: string, path: string)
    requires WellFormed(u) && PlainPrefix(prefix)
    ensures WellFormed(Url(u.scheme, u.authority, StripSlashes(u.rest) + prefix + "/" + path))
  {
    var stripped := StripSlashes(u.rest);
    var r := stripped + prefix + "/" + path;
    if stripped != [] {
      assert r[0] == u.rest[0];
    } else if prefix != [] {
      assert r[0] == prefix[0];
    }
  }

  /** Assembling keeps scheme and authority and only extends what follows. */
  lemma {:induction false} AssembledParses(u: Url, prefix: string, path: string)
    requires WellFormed(u) && PlainPrefix(prefix)
    ensures Parse(Assemble(Text(u), prefix, path))
      == Some(Url(u.scheme, u.authority, StripSlashes(u.rest) + prefix + "/" + path))
  {
    AssembledText(u, prefix, path);
    AssembledStart(u, prefix, path);
    PrintThenParse(Url(u.scheme, u.authority, StripSlashes(u.rest) + prefix + "/" + path));
  }

  lemma {:induction false} PlainRest(u: Url)
    requires forall i :: 0 <= i < |u.rest| ==> u.rest[i] !in PATH_END
    ensures u.Path() == u.rest && u.Query().None? && u.Fragment().None?
  {
    assert u.rest + "" == u.rest;
    UntilStop(u.rest, "", PATH_END);
    UntilStop(u.rest, "", {'#'});
    UntilStop(u.rest, "", {'?'});
  }

  lemma {:induction false} StripKeepsDotFree(c: string)
    requires NoDotSegments(c)
    ensures NoDotSegments(StripSlashes(c))
    decreases |c|
  {
    if c != [] && c[|c| - 1] == '/' {
      var a := c[..|c| - 1];
      assert c == a + "/" + "";
      SegmentsAppend(a, "");
      forall i | 0 <= i < |Segments(a)| ensures !Dots(Segments(a)[i]) {
        assert Segments(c)[i] == Segments(a)[i];
      }
      StripKeepsDotFree(a);
    }
  }

  predicate HasMark(rest: string) {
    exists i :: 0 <= i < |rest| && rest[i] in PATH_END
  }

  lemma {:induction false} StripKeepsMark(s: string)
    ensures HasMark(StripSlashes(s)) <==> HasMark(s)
    decreases |s|
  {
    if s != [] && s[|s| - 1] == '/' {
      var a := s[..|s| - 1];
      StripKeepsMark(a);
      assert HasMark(a) ==> HasMark(s) by {
        if HasMark(a) {
          var i :| 0 <= i < |a| && a[i] in PATH_END;
          assert s[i] == a[i];
        }
      }
      assert HasMark(s) ==> HasMark(a) by {
        if HasMark(s) {
          var i :| 0 <= i < |s| && s[i] in PATH_END;
          assert i < |a| && a[i] == s[i];
        }
      }
    }
  }

  /** A mark in the base pulls the whole component into the query or the fragment. */
  lemma {:induction false} MarkedBase(b: string, c: string)
    requires HasMark(b) && c != [] && NoneForbidden(c)
    ensures var u := Url("", "", b + c); Present(u.Query()) || Present(u.Fragment())
  {
    var s := b + c;
    assert s[|s| - 1] == c[|c| - 1] && !Forbidden(c[|c| - 1]);
    var front := Until(s, {'#'});
    if |front| < |s| {
      assert |front| + 1 < |s|;
    } else {
      var i :| 0 <= i < |b| && b[i] in PATH_END;
      assert s[i] == b[i] && front[i] == s[i];
      var p := Until(s, {'?'});
      assert |p| <= i;
    }
  }

  /** A marked base: the whole component ends up in the query or the fragment. */
  lemma {:induction false} MarkedPath(u: Url, prefix: string, path: string)
    requires HasMark(u.rest) && Safe(path) && path != []
    ensures var u' := Url(u.scheme, u.authority, StripSlashes(u.rest) + prefix + "/" + path);
      Present(u'.Query()) || Present(u'.Fragment())
  {
    var strip := StripSlashes(u.rest);
    var b := strip + prefix + "/";
    var u' := Url(u.scheme, u.authority, b + path);
    StripKeepsMark(u.rest);
    var i :| 0 <= i < |strip| && strip[i] in PATH_END;
    assert b[i] == strip[i];
    MarkedBase(b, path);
    assert u'.Query() == Url("", "", b + path).Query() && u'.Fragment() == Url("", "", b + path).Fragment();
  }

  lemma {:induction false} NoMarks(strip: string, prefix: string, path: string)
    requires !HasMark(strip) && PlainPrefix(prefix) && NoneForbidden(path)
    ensures forall i :: 0 <= i < |strip + prefix + "/" + path| ==> (strip + prefix + "/" + path)[i] !in PATH_END
  {
  }

  /** An unmarked base: the component follows whatever dot removal makes of the base. */
  lemma {:induction false} UnmarkedPath(u: Url, prefix: string, path: string)
    requires WellFormed(u) && PlainPrefix(prefix) && Safe(path) && path != [] && !HasMark(u.rest)
    ensures
      var b := StripSlashes(u.rest) + prefix + "/";
      var u' := Url(u.scheme, u.authority, b + path);
      RawPath(u') == RemoveDots(b, "") + path && !Present(u'.Query()) && !Present(u'.Fragment())
  {
    var strip := StripSlashes(u.rest);
    var b := strip + prefix + "/";
    StripKeepsMark(u.rest);
    NoMarks(strip, prefix, path);
    PlainRest(Url(u.scheme, u.authority, b + path));
    SlashFirst(u, prefix);
    ComponentSurvives(b, path, "");
    assert RemoveDots(b, "") + path != "";
  }

  lemma {:induction false} SlashFirst(u: Url, prefix: string)
    requires WellFormed(u) && PlainPrefix(prefix) && !HasMark(u.rest)
    ensures (StripSlashes(u.rest) + prefix + "/")[0] == '/'
  {
    var strip := StripSlashes(u.rest);
    if strip != [] {
      assert strip[0] == u.rest[0] && strip[0] !in PATH_END;
    }
  }

  /** What the assembled path is, for a component that is safe as it stands. */
  lemma {:induction false} AssembledPath(u: Url, prefix: string, path: string)
    requires WellFormed(u) && PlainPrefix(prefix) && Safe(path) && path != []
    ensures
      var b := StripSlashes(u.rest) + prefix + "/";
      var u' := Url(u.scheme, u.authority, b + path);
      && (HasMark(u.rest) ==> Present(u'.Query()) || Present(u'.Fragment()))
      && (!HasMark(u.rest) ==>
           RawPath(u') == RemoveDots(b, "") + path && !Present(u'.Query()) && !Present(u'.Fragment()))
      && (PlainBase(u) ==> RawPath(u') == u'.rest && StripSlashes(RawPath(u)) + prefix + "/" <= RawPath(u'))
  {
    if HasMark(u.rest) {
      MarkedPath(u, prefix, path);
    } else {
      UnmarkedPath(u, prefix, path);
    }
    if PlainBase(u) {
      PlainPaths(u, prefix, path);
    }
  }

  /** A path without dot segments or marks is sent as it is. */
  lemma {:induction false} PlainRaw(u: Url)
    requires PlainBase(u)
    ensures RawPath(u) == if u.rest == [] then "/" else u.rest
  {
    PlainRest(u);
    if u.rest != [] {
      assert u.rest == "/" + u.rest[1..];
      DotFreePasses(u.rest[1..], "");
      assert "" + "/" + u.rest[1..] == u.rest;
      assert u.rest + "" == u.rest;
    }
  }

  lemma {:induction false} PlainPaths(u: Url, prefix: string, path: string)
    requires PlainBase(u) && PlainPrefix(prefix) && Safe(path) && path != []
    ensures
      var u' := Url(u.scheme, u.authority, StripSlashes(u.rest) + prefix + "/" + path);
      RawPath(u') == u'.rest && StripSlashes(RawPath(u)) + prefix + "/" <= RawPath(u')
  {
    var strip := StripSlashes(u.rest);
    assert !HasMark(u.rest);
    StripKeepsMark(u.rest);
    var u' := Url(u.scheme, u.authority, strip + prefix + "/" + path);
    NoMarks(strip, prefix, path);
    DotFreeJoin(strip, prefix, path, u.rest);
    PlainRaw(u');
    PlainRaw(u);
    assert StripSlashes("/") == StripSlashes("/"[..0]) == "";
  }

  /** Joining dot-free pieces at slashes introduces no dot segment. */
  lemma {:induction false} DotFreeJoin(strip: string, prefix: string, path: string, rest: string)
    requires strip == StripSlashes(rest) && (rest != [] ==> rest[0] == '/' && NoDotSegments(rest[1..]))
    requires PlainPrefix(prefix) && NoDotSegments(path)
    ensures var s := strip + prefix + "/" + path; s[0] == '/' && NoDotSegments(s[1..])
  {
    var s := strip + prefix + "/" + path;
    if strip == [] && prefix == [] {
      assert s[1..] == path;
    } else if strip == [] {
      assert s[1..] == prefix[1..] + "/" + path;
      JoinDotFree(prefix[1..], path);
    } else {
      assert strip[0] == rest[0];
      StripTail(rest);
      StripKeepsDotFree(rest[1..]);
      var head := strip[1..];
      if prefix == [] {
        assert s[1..] == head + "/" + path;
        JoinDotFree(head, path);
      } else {
        JoinDotFree(head, prefix[1..]);
        assert prefix == "/" + prefix[1..];
        assert s[1..] == (head + "/" + prefix[1..]) + "/" + path;
        JoinDotFree(head + "/" + prefix[1..], path);
      }
    }
  }

  lemma {:induction false} JoinDotFree(a: string, b: string)
    requires NoDotSegments(a) && NoDotSegments(b)
    ensures NoDotSegments(a + "/" + b)
  {
    SegmentsAppend(a, b);
  }

  lemma {:induction false} StripTail(s: string)
    requires StripSlashes(s) != []
    ensures StripSlashes(s)[1..] == StripSlashes(s[1..])
    decreases |s|
  {
    if s[|s| - 1] == '/' {
      var a := s[..|s| - 1];
      StripTail(a);
      assert a[1..] == s[1..][..|s| - 2];
      assert |s| > 1;
    } else if |s| > 1 {
      assert s[1..][|s| - 2] == s[|s| - 1];
    }
  }

  method BuildUpstreamUrl(repair: Repair, baseUrl: string, path: string, prefix: string) returns (r: Built)
    requires GoodRepair(repair) && PlainPrefix(prefix)
    ensures Parse(baseUrl).None? <==> r == Refused(InvalidBaseUrl)
    ensures r.Built? ==>
      && Parse(baseUrl).Some? && path != [] && NoneControl(path) && SettledInTime(repair, path)
      && AlwaysSafe(repair, path)
      && Parse(Assemble(baseUrl, prefix, path)) == Some(r.url)
      && r.url.scheme == Parse(baseUrl).value.scheme && r.url.authority == Parse(baseUrl).value.authority
      && StripSlashes(RawPath(Parse(baseUrl).value)) + prefix + "/" <= RawPath(r.url)
      && !Present(r.url.Query()) && !Present(r.url.Fragment())
    // however often it is encoded, nothing unsafe gets through
    ensures forall t: string, n: nat :: Hides(path, t, n) && !Safe(t) ==> r.Refused?
    // a base with a query or fragment mark never builds; any other keeps the component's segments unchanged
    ensures Parse(baseUrl).Some? && HasMark(Parse(baseUrl).value.rest) ==> r.Refused?
    ensures r.Built? ==>
      && r.url.rest == StripSlashes(Parse(baseUrl).value.rest) + prefix + "/" + path
      && RawPath(r.url) == RemoveDots(StripSlashes(Parse(baseUrl).value.rest) + prefix + "/", "") + path
    // for a base path without dot segments the component check is the only one that can refuse
    ensures Parse(baseUrl).Some? && PlainBase(Parse(baseUrl).value) ==>
      (r.Built? <==> path != [] && NoneControl(path) && SettledInTime(repair, path) && AlwaysSafe(repair, path))
    ensures r.Built? && PlainBase(Parse(baseUrl).value) ==> RawPath(r.url) == r.url.rest
  {
    var base := Parse(baseUrl);
    if base.None? {
      return Refused(InvalidBaseUrl);
    }
    ParseThenPrint(baseUrl);
    AssembledParses(base.value, prefix, path);
    var v := CheckComponent(repair, path);
    if v.Rejected? {
      return Refused(v.reason);
    }
    assert Safe(Decoded(repair, path, 0));
    AssembledPath(base.value, prefix, path);
    var assembled := Parse(Assemble(baseUrl, prefix, path));
    if assembled.None? {
      return Refused(PathEscape);
    }
    if assembled.value.scheme != base.value.scheme || assembled.value.authority != base.value.authority {
      return Refused(DestinationChanged);
    }
    if !(StripSlashes(RawPath(base.value)) + prefix + "/" <= RawPath(assembled.value)) {
      return Refused(PathEscape);
    }
    if Present(assembled.value.Query()) || Present(assembled.value.Fragment()) {
      return Refused(QueryInPath);
    }
    return Built(assembled.value);
  }
}
