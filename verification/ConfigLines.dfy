/**
 The small block-mapping reader: which lines are keys, what dotted path each has, and the list of
 (path, scalar text) entries a file denotes.
 */
module ConfigLines {
  import opened Options
  import opened Sequences

  // ---------- characters and trimming ----------

  predicate Space(c: char) {
    var n := c as int;
    n == 32 || 9 <= n <= 13 || 28 <= n <= 31 || n == 0x85 || n == 0xa0
  }

  function LStrip(s: string): (r: string)
    ensures r != [] ==> !Space(r[0])
    ensures |r| <= |s|
  {
    if s != [] && Space(s[0]) then LStrip(s[1..]) else s
  }

  function RStrip(s: string): (r: string)
    ensures r != [] ==> !Space(r[|r| - 1])
    ensures r <= s
  {
    if s != [] && Space(s[|s| - 1]) then RStrip(s[..|s| - 1]) else s
  }

  function Strip(s: string): string {
    RStrip(LStrip(s))
  }

  /** `lines[i].lstrip().startswith("#")`. */
  predicate IsComment(line: string) {
    LStrip(line) != [] && LStrip(line)[0] == '#'
  }

  predicate IsBlank(s: string) {
    Strip(s) == []
  }

  predicate AllSpace(s: string) {
    forall i :: 0 <= i < |s| ==> Space(s[i])
  }

  /** What stripping takes away is white space, and it takes all there is at both ends. */
  lemma {:induction false} StripExact(s: string) returns (a: string, b: string)
    ensures s == a + Strip(s) + b && AllSpace(a) && AllSpace(b)
    ensures Strip(s) != [] ==> !Space(Strip(s)[0]) && !Space(Strip(s)[|Strip(s)| - 1])
  {
    var l := LStrip(s);
    a := LStripExact(s);
    b := RStripExact(l);
    assert a + (Strip(s) + b) == a + Strip(s) + b;
    if Strip(s) != [] {
      assert Strip(s)[0] == l[0];
    }
  }

  lemma {:induction false} LStripExact(s: string) returns (a: string)
    ensures s == a + LStrip(s) && AllSpace(a)
    decreases |s|
  {
    if s != [] && Space(s[0]) {
      a := LStripExact(s[1..]);
      assert s == [s[0]] + s[1..];
      assert [s[0]] + (a + LStrip(s[1..])) == [s[0]] + a + LStrip(s[1..]);
      a := [s[0]] + a;
    } else {
      a := [];
    }
  }

  lemma {:induction false} RStripExact(s: string) returns (b: string)
    ensures s == RStrip(s) + b && AllSpace(b)
    decreases |s|
  {
    if s != [] && Space(s[|s| - 1]) {
      var n := |s| - 1;
      b := RStripExact(s[..n]);
      assert s == s[..n] + [s[n]];
      assert RStrip(s[..n]) + b + [s[n]] == RStrip(s[..n]) + (b + [s[n]]);
      b := b + [s[n]];
    } else {
      b := [];
    }
  }

  lemma {:induction false} StripBlank(s: string)
    ensures IsBlank(s) <==> LStrip(s) == []
    decreases |s|
  {
    var t := LStrip(s);
    if t != [] {
      FirstSurvives(t);
    }
  }

  lemma {:induction false} FirstSurvives(t: string)
    requires t != [] && !Space(t[0])
    ensures RStrip(t) != [] && RStrip(t)[0] == t[0]
    decreases |t|
  {
    if Space(t[|t| - 1]) {
      FirstSurvives(t[..|t| - 1]);
    }
  }

  lemma {:induction false} LeadingSpace(pad: string, s: string)
    requires forall i :: 0 <= i < |pad| ==> Space(pad[i])
    ensures LStrip(pad + s) == LStrip(s)
    decreases |pad|
  {
    if pad == [] {
      assert pad + s == s;
    } else {
      assert (pad + s)[1..] == pad[1..] + s;
      LeadingSpace(pad[1..], s);
    }
  }

  /** A stripped line starting with a hash, as the reader tests it. */
  lemma {:induction false} CommentIsStrippedHash(line: string)
    ensures IsComment(line) <==> Strip(line) != [] && Strip(line)[0] == '#'
  {
    if LStrip(line) != [] {
      FirstSurvives(LStrip(line));
    }
  }

  // ---------- key lines ----------

  predicate KeyStart(c: char) {
    'A' <= c <= 'Z' || 'a' <= c <= 'z' || '0' <= c <= '9' || c == '_'
  }

  predicate KeyChar(c: char) {
    KeyStart(c) || c == '.' || c == '-'
  }

  function Spaces(s: string): (n: nat)
    ensures n <= |s| && (n < |s| ==> s[n] != ' ')
    ensures forall i :: 0 <= i < n ==> s[i] == ' '
  {
    if s != [] && s[0] == ' ' then 1 + Spaces(s[1..]) else 0
  }

  function KeyLength(s: string): (n: nat)
    ensures n <= |s| && (n < |s| ==> !KeyChar(s[n]))
    ensures forall i :: 0 <= i < n ==> KeyChar(s[i])
  {
    if s != [] && KeyChar(s[0]) then 1 + KeyLength(s[1..]) else 0
  }

  /** A match of the key expression: indent, key, and the text behind the colon. */
  datatype KeyLine = KeyLine(indent: nat, key: string, rest: string)

  function MatchKey(line: string): Option<KeyLine> {
    var indent := Spaces(line);
    var body := line[indent..];
    var n := KeyLength(body);
    if n > 0 && KeyStart(body[0]) && n < |body| && body[n] == ':'
    then Some(KeyLine(indent, body[..n], body[n + 1..]))
    else None
  }

  /** The text in front of the colon. */
  function Head(k: KeyLine): string {
    seq(k.indent, _ => ' ') + k.key
  }

  lemma {:induction false} Printed(k: KeyLine)
    ensures Head(k) + ":" + k.rest == seq(k.indent, _ => ' ') + (k.key + (":" + k.rest))
  {
    var pad := seq(k.indent, _ => ' ');
    Regroup(pad + k.key, ":", k.rest);
    Regroup(pad, k.key, ":" + k.rest);
  }

  lemma {:induction false} MatchedPad(line: string)
    requires MatchKey(line).Some?
    ensures var k := MatchKey(line).value; k.indent <= |line| && line[..k.indent] == seq(k.indent, _ => ' ')
  {
  }

  lemma {:induction false} MatchedBody(line: string)
    requires MatchKey(line).Some?
    ensures var k := MatchKey(line).value;
      && k.indent <= |line| && line[k.indent..] == k.key + (":" + k.rest) && k.key != [] && KeyStart(k.key[0])
      && forall i :: 0 <= i < |k.key| ==> KeyChar(k.key[i])
  {
    var k := MatchKey(line).value;
    var body := line[k.indent..];
    Parts(body, |k.key|, ':');
    Regroup(k.key, ":", k.rest);
  }

  /** A key line is its head, a colon and its rest; and such a text matches with exactly these parts. */
  lemma {:induction false} KeyLineParts(line: string)
    requires MatchKey(line).Some?
    ensures var k := MatchKey(line).value;
      && line == Head(k) + ":" + k.rest && k.key != [] && KeyStart(k.key[0])
      && forall i :: 0 <= i < |k.key| ==> KeyChar(k.key[i])
  {
    var k := MatchKey(line).value;
    MatchedPad(line);
    MatchedBody(line);
    Printed(k);
    assert line == line[..k.indent] + line[k.indent..];
  }

  lemma {:induction false} KeyLengthOf(key: string, after: string)
    requires (forall i :: 0 <= i < |key| ==> KeyChar(key[i])) && after != [] && !KeyChar(after[0])
    ensures KeyLength(key + after) == |key|
    decreases |key|
  {
    if key == [] {
      assert key + after == after;
    } else {
      assert (key + after)[1..] == key[1..] + after;
      KeyLengthOf(key[1..], after);
    }
  }

  lemma {:induction false} SpacesOf(pad: string, after: string)
    requires (forall i :: 0 <= i < |pad| ==> pad[i] == ' ') && after != [] && after[0] != ' '
    ensures Spaces(pad + after) == |pad|
    decreases |pad|
  {
    if pad == [] {
      assert pad + after == after;
    } else {
      TailOfAppend(pad, after);
      SpacesOf(pad[1..], after);
    }
  }

  lemma {:induction false} HeadMatches(k: KeyLine)
    requires k.key != [] && KeyStart(k.key[0]) && forall i :: 0 <= i < |k.key| ==> KeyChar(k.key[i])
    ensures MatchKey(Head(k) + ":" + k.rest) == Some(k)
  {
    var tail := k.key + (":" + k.rest);
    BehindIndent(k);
    KeyLengthOf(k.key, ":" + k.rest);
    TailFrom(k.key, ":" + k.rest, |k.key|);
    assert (":" + k.rest)[1..] == k.rest;
    TailTwice(tail, |k.key|);
  }

  lemma {:induction false} BehindIndent(k: KeyLine)
    requires k.key != [] && KeyStart(k.key[0])
    ensures var line := Head(k) + ":" + k.rest;
      Spaces(line) == k.indent && line[k.indent..] == k.key + (":" + k.rest)
  {
    var pad, tail := seq(k.indent, _ => ' '), k.key + (":" + k.rest);
    Printed(k);
    SpacesOf(pad, tail);
    TailFrom(pad, tail, k.indent);
    assert pad[k.indent..] + tail == tail;
  }

  lemma {:induction false} TailTwice(s: string, n: nat)
    requires n < |s|
    ensures s[n + 1..] == s[n..][1..] && s[n] == s[n..][0]
  {
  }

  // ---------- the reader ----------

  datatype Item = Item(indent: nat, key: string)

  type Path = seq<string>

  function PopTo(stack: seq<Item>, indent: nat): seq<Item> {
    if stack != [] && stack[|stack| - 1].indent >= indent then PopTo(stack[..|stack| - 1], indent) else stack
  }

  function Keys(stack: seq<Item>): Path {
    seq(|stack|, i requires 0 <= i < |stack| => stack[i].key)
  }

  /** The key match of a line the reader does not skip. */
  function Read(line: string): Option<KeyLine> {
    if IsBlank(line) || IsComment(line) then None else MatchKey(line)
  }

  function PathOf(stack: seq<Item>, k: KeyLine): Path {
    Keys(PopTo(stack, k.indent)) + [k.key]
  }

  function Push(stack: seq<Item>, line: string): seq<Item> {
    match Read(line)
    case None => stack
    case Some(k) =>
      var base := PopTo(stack, k.indent);
      if IsBlank(k.rest) then base + [Item(k.indent, k.key)] else base
  }

  function StackAfter(lines: seq<string>): seq<Item> {
    if lines == [] then [] else Push(StackAfter(lines[..|lines| - 1]), lines[|lines| - 1])
  }

  function PathIn(stack: seq<Item>, line: string): Option<Path> {
    match Read(line) case None => None case Some(k) => Some(PathOf(stack, k))
  }

  /** For every line its dotted path, if it is a key line. */
  function Paths(lines: seq<string>): (r: seq<Option<Path>>)
    ensures |r| == |lines|
  {
    if lines == [] then []
    else
      var pre := lines[..|lines| - 1];
      Paths(pre) + [PathIn(StackAfter(pre), lines[|lines| - 1])]
  }

  function IndexMap(ps: seq<Option<Path>>): map<nat, Path> {
    map i: nat | i < |ps| && ps[i].Some? :: ps[i].value
  }

  lemma {:induction false} IndexMapSnoc(ps: seq<Option<Path>>, p: Option<Path>)
    ensures IndexMap(ps + [p]) == if p.Some? then IndexMap(ps)[|ps| := p.value] else IndexMap(ps)
  {
  }

  lemma {:induction false} NextLine(lines: seq<string>, i: nat)
    requires i < |lines|
    ensures StackAfter(lines[..i + 1]) == Push(StackAfter(lines[..i]), lines[i])
    ensures Paths(lines[..i + 1]) == Paths(lines[..i]) + [PathIn(StackAfter(lines[..i]), lines[i])]
  {
    NextPrefix(lines, i);
    ReadOneMore(lines[..i], lines[i]);
  }

  /** The inner loop of `path_map`. */
  method PopStack(items: seq<Item>, indent: nat) returns (stack: seq<Item>)
    ensures stack == PopTo(items, indent)
  {
    stack := items;
    while stack != [] && stack[|stack| - 1].indent >= indent
      invariant PopTo(stack, indent) == PopTo(items, indent)
      decreases |stack|
    {
      stack := stack[..|stack| - 1];
    }
  }

  /** One line of the reader: skipped, or a key whose path extends what is left of the stack. */
  method ReadLine(items: seq<Item>, line: string) returns (stack: seq<Item>, path: Option<Path>)
    ensures stack == Push(items, line)
    ensures path == PathIn(items, line)
  {
    stack, path := items, None;
    var stripped := Strip(line);
    CommentIsStrippedHash(line);
    if stripped == [] || stripped[0] == '#' {
      return;
    }
    var found := MatchKey(line);
    if found.Some? {
      var k := found.value;
      stack := PopStack(stack, k.indent);
      path := Some(Keys(stack) + [k.key]);
      if Strip(k.rest) == [] {
        stack := stack + [Item(k.indent, k.key)];
      }
    }
  }

  /** `path_map`. */
  method PathMap(lines: seq<string>) returns (out: map<nat, Path>)
    ensures out == IndexMap(Paths(lines))
  {
    var stack: seq<Item> := [];
    out := map[];
    var index := 0;
    while index < |lines|
      invariant 0 <= index <= |lines|
      invariant stack == StackAfter(lines[..index])
      invariant out == IndexMap(Paths(lines[..index]))
    {
      NextLine(lines, index);
      var path;
      stack, path := ReadLine(stack, lines[index]);
      IndexMapSnoc(Paths(lines[..index]), path);
      if path.Some? {
        out := out[index := path.value];
      }
      index := index + 1;
    }
    assert lines[..index] == lines;
  }

  /** `find_key`: the first line with the path. */
  function FindKey(paths: seq<Option<Path>>, path: Path): (r: Option<nat>)
    ensures r.Some? ==> r.value < |paths| && paths[r.value] == Some(path)
    ensures r.Some? ==> forall j :: 0 <= j < r.value ==> paths[j] != Some(path)
    ensures r.None? ==> Some(path) !in paths
  {
    if paths == [] then None
    else if paths[0] == Some(path) then Some(0)
    else
      var rest := FindKey(paths[1..], path);
      assert paths == [paths[0]] + paths[1..];
      if rest.Some? then Some(rest.value + 1) else None
  }

  // ---------- the document a file denotes ----------

  /** Length of a single-quoted scalar at the start of `s`, closing quote included; a doubled quote is an escape. */
  function QuotedEnd(s: string, i: nat): (n: nat)
    requires i <= |s|
    ensures i <= n <= |s|
    decreases |s| - i
  {
    if i == |s| then i
    else if s[i] == '\'' then (if i + 1 < |s| && s[i + 1] == '\'' then QuotedEnd(s, i + 2) else i + 1)
    else QuotedEnd(s, i + 1)
  }

  /** The start of the trailing comment: the first run of white space in front of a hash. */
  function CommentStart(s: string, i: nat): (n: nat)
    requires i <= |s|
    ensures i <= n <= |s|
    decreases |s| - i
  {
    if i == |s| then i
    else if Space(s[i]) && LStrip(s[i..]) != [] && LStrip(s[i..])[0] == '#' then i
    else CommentStart(s, i + 1)
  }

  /** The scalar behind the colon, without its trailing comment. */
  function ScalarText(rest: string): string {
    var s := LStrip(rest);
    if s != [] && s[0] == '\'' then s[..QuotedEnd(s, 1)] else Strip(rest[..CommentStart(rest, 0)])
  }

  datatype Pair = Pair(path: Path, text: string)

  function EntryOf(stack: seq<Item>, line: string): seq<Pair> {
    match Read(line)
    case None => []
    case Some(k) => [Pair(PathOf(stack, k), ScalarText(k.rest))]
  }

  /** All key lines of a file, in order. */
  function Entries(lines: seq<string>): seq<Pair> {
    if lines == [] then []
    else Entries(lines[..|lines| - 1]) + EntryOf(StackAfter(lines[..|lines| - 1]), lines[|lines| - 1])
  }

  // ---------- comments do not matter ----------

  ghost predicate AllComments(lines: seq<string>) {
    forall i :: 0 <= i < |lines| ==> IsComment(lines[i])
  }

  /** What reading `b` adds depends only on the stack it starts with. */
  function EntriesFrom(stack: seq<Item>, lines: seq<string>): seq<Pair>
    decreases |lines|
  {
    if lines == [] then [] else EntryOf(stack, lines[0]) + EntriesFrom(Push(stack, lines[0]), lines[1..])
  }

  function StackFrom(stack: seq<Item>, lines: seq<string>): seq<Item>
    decreases |lines|
  {
    if lines == [] then stack else StackFrom(Push(stack, lines[0]), lines[1..])
  }

  lemma {:induction false} ReadOn(a: seq<string>, b: seq<string>)
    ensures StackAfter(a + b) == StackFrom(StackAfter(a), b)
    ensures Entries(a + b) == Entries(a) + EntriesFrom(StackAfter(a), b)
    decreases |b|
  {
    if b == [] {
      assert a + b == a;
    } else {
      var x, rest := b[0], b[1..];
      ReadOneMore(a, x);
      MoveFirst(a, b);
      ReadOn(a + [x], rest);
      Regroup(Entries(a), EntryOf(StackAfter(a), x), EntriesFrom(Push(StackAfter(a), x), rest));
    }
  }

  lemma {:induction false} ReadOneMore(a: seq<string>, x: string)
    ensures StackAfter(a + [x]) == Push(StackAfter(a), x)
    ensures Entries(a + [x]) == Entries(a) + EntryOf(StackAfter(a), x)
    ensures Paths(a + [x]) == Paths(a) + [PathIn(StackAfter(a), x)]
  {
    LastOfAppend(a, x);
  }

  lemma {:induction false} CommentsAreSkipped(stack: seq<Item>, c: seq<string>, b: seq<string>)
    requires AllComments(c)
    ensures StackFrom(stack, c + b) == StackFrom(stack, b)
    ensures EntriesFrom(stack, c + b) == EntriesFrom(stack, b)
    decreases |c|
  {
    if c == [] {
      assert c + b == b;
    } else {
      TailOfAppend(c, b);
      CommentsAreSkipped(stack, c[1..], b);
    }
  }

  /** Replacing a run of comment lines by any other comment lines leaves the document as it is. */
  lemma {:induction false} CommentsAreInvisible(a: seq<string>, c: seq<string>, d: seq<string>, b: seq<string>)
    requires AllComments(c) && AllComments(d)
    ensures Entries(a + c + b) == Entries(a + d + b)
  {
    Regroup(a, c, b);
    Regroup(a, d, b);
    ReadOn(a, c + b);
    ReadOn(a, d + b);
    CommentsAreSkipped(StackAfter(a), c, b);
    CommentsAreSkipped(StackAfter(a), d, b);
  }

  function PathsFrom(stack: seq<Item>, lines: seq<string>): seq<Option<Path>>
    decreases |lines|
  {
    if lines == [] then [] else [PathIn(stack, lines[0])] + PathsFrom(Push(stack, lines[0]), lines[1..])
  }

  lemma {:induction false} PathsReadOn(a: seq<string>, b: seq<string>)
    ensures Paths(a + b) == Paths(a) + PathsFrom(StackAfter(a), b)
    decreases |b|
  {
    if b == [] {
      assert a + b == a;
    } else {
      var x, rest := b[0], b[1..];
      ReadOneMore(a, x);
      MoveFirst(a, b);
      PathsReadOn(a + [x], rest);
      Regroup(Paths(a), [PathIn(StackAfter(a), x)], PathsFrom(Push(StackAfter(a), x), rest));
    }
  }

  /** The path of one line depends only on what stands before it. */
  lemma {:induction false} PathAround(a: seq<string>, x: string, b: seq<string>)
    ensures Paths(a + [x] + b) == Paths(a) + [PathIn(StackAfter(a), x)] + PathsFrom(Push(StackAfter(a), x), b)
  {
    PathsReadOn(a + [x], b);
    ReadOneMore(a, x);
  }

  lemma {:induction false} PathThere(lines: seq<string>, i: nat)
    requires i < |lines|
    ensures Paths(lines)[i] == PathIn(StackAfter(lines[..i]), lines[i])
  {
    Parts(lines, i, lines[i]);
    PathAround(lines[..i], lines[i], lines[i + 1..]);
  }
}
