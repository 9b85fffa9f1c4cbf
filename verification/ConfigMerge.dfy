/** The text-level merge: rewriting declared scalar lines and splicing comment blocks back in. */
module ConfigMerge {
  import opened Options
  import opened Sequences
  import opened ConfigLines

  // ---------- rewriting one value ----------

  /** A value as it will be printed: a boolean or number token, or a string. */
  datatype Value = Token(token: string) | Text(text: string)

  predicate Special(c: char) {
    c in {'#', '{', '}', '[', ']', ',', '&', '*', '!', '|', '>', '\'', '"', '%', '@', '`'}
  }

  predicate HasSpecial(s: string) {
    exists i :: 0 <= i < |s| && Special(s[i])
  }

  predicate HasColonSpace(s: string) {
    exists i :: 0 <= i < |s| - 1 && s[i] == ':' && s[i + 1] == ' '
  }

  predicate NeedsQuotes(s: string) {
    s == "" || Strip(s) != s || s[|s| - 1] == ':' || HasColonSpace(s) || HasSpecial(s)
  }

  /** `text.replace("'", "''")`. */
  function Doubled(s: string): string {
    if s == [] then [] else (if s[0] == '\'' then "''" else [s[0]]) + Doubled(s[1..])
  }

  /** Booleans and numbers print without white space, quotes or hashes. */
  predicate OkValue(v: Value) {
    v.Token? ==> v.token != [] && !HasSpecial(v.token) && forall i :: 0 <= i < |v.token| ==> !Space(v.token[i])
  }

  function FormatScalar(v: Value): string {
    match v
    case Token(t) => t
    case Text(t) => if NeedsQuotes(t) then "'" + Doubled(t) + "'" else t
  }

  /** What a single-quoted scalar says between its quotes: a doubled quote stands for one. */
  function Undoubled(s: string): string {
    if s == [] then []
    else if |s| >= 2 && s[0] == '\'' && s[1] == '\'' then ['\''] + Undoubled(s[2..])
    else [s[0]] + Undoubled(s[1..])
  }

  /** The text a printed scalar stands for (section 7.3.2 of YAML 1.2.2): plain, or between single quotes. */
  function ScalarMeaning(f: string): string {
    if |f| >= 2 && f[0] == '\'' && f[|f| - 1] == '\'' then Undoubled(f[1..|f| - 1]) else f
  }

  lemma {:induction false} UndoubledDoubled(s: string)
    ensures Undoubled(Doubled(s)) == s
    decreases |s|
  {
    if s != [] {
      UndoubledDoubled(s[1..]);
      var d := Doubled(s);
      if s[0] == '\'' {
        assert d[2..] == Doubled(s[1..]);
      } else {
        assert d[0] == s[0] && d[1..] == Doubled(s[1..]);
      }
    }
  }

  /** A printed value stands for exactly that value's text. */
  lemma {:induction false} FormattedMeans(v: Value)
    requires OkValue(v)
    ensures ScalarMeaning(FormatScalar(v)) == if v.Token? then v.token else v.text
  {
    match v
    case Token(t) => assert Special('\'');
    case Text(t) =>
      if NeedsQuotes(t) {
        UndoubledDoubled(t);
        assert FormatScalar(v)[1..|FormatScalar(v)| - 1] == Doubled(t);
      } else {
        assert Special('\'');
      }
  }

  lemma {:induction false} SpecialExact(c: char)
    ensures Special(c) <==> c in "#{}[],&*!|>'\"%@`"
  {
    var all := "#{}[],&*!|>'\"%@`";
    assert all[0] == '#' && all[1] == '{' && all[2] == '}' && all[3] == '[' && all[4] == ']' && all[5] == ',';
    assert all[6] == '&' && all[7] == '*' && all[8] == '!' && all[9] == '|' && all[10] == '>' && all[11] == '\'';
    assert all[12] == '"' && all[13] == '%' && all[14] == '@' && all[15] == '`';
  }

  lemma {:induction false} DoubledGrows(s: string)
    ensures |Doubled(s)| >= |s|
    decreases |s|
  {
    if s != [] {
      DoubledGrows(s[1..]);
    }
  }

  lemma {:induction false} LStripSame(t: string)
    requires |LStrip(t)| == |t|
    ensures LStrip(t) == t
  {
  }

  lemma {:induction false} TrimmedEnds(t: string)
    requires t != [] && Strip(t) == t
    ensures !Space(t[0]) && !Space(t[|t| - 1])
  {
    var l := LStrip(t);
    assert |RStrip(l)| <= |l|;
    LStripSame(t);
  }

  lemma {:induction false} QuotedIsLonger(t: string)
    ensures NeedsQuotes(t) ==> |FormatScalar(Text(t))| > |t|
  {
    DoubledGrows(t);
  }

  /** A text printed as it is has nothing in it that would end or change a plain scalar. */
  lemma {:induction false} PlainIsPlain(t: string)
    requires FormatScalar(Text(t)) == t
    ensures t != "" && !Space(t[0]) && !Space(t[|t| - 1]) && t[|t| - 1] != ':'
    ensures forall i :: 0 <= i < |t| ==> t[i] !in "#{}[],&*!|>'\"%@`"
    ensures forall i :: 0 <= i < |t| - 1 ==> t[i] != ':' || t[i + 1] != ' '
  {
    QuotedIsLonger(t);
    TrimmedEnds(t);
    forall i | 0 <= i < |t| ensures t[i] !in "#{}[],&*!|>'\"%@`" {
      SpecialExact(t[i]);
    }
  }

  function FirstColon(s: string): (n: nat)
    ensures n <= |s| && (n < |s| ==> s[n] == ':')
    ensures forall i :: 0 <= i < n ==> s[i] != ':'
  {
    if s == [] || s[0] == ':' then 0 else 1 + FirstColon(s[1..])
  }

  /** `replace_value_line` on a line that has a colon. */
  function ReplaceValueLine(line: string, v: Value): string {
    var n := FirstColon(line);
    var rest := if n < |line| then line[n + 1..] else [];
    line[..n] + ":" + (" " + FormatScalar(v) + rest[CommentStart(rest, 0)..])
  }

  /** A trailing comment is empty, or white space and then a hash. */
  predicate TrailingComment(c: string) {
    c == [] || (Space(c[0]) && IsComment(c))
  }

  lemma {:induction false} CommentStartsThere(s: string, i: nat)
    requires i <= |s|
    ensures TrailingComment(s[CommentStart(s, i)..])
    decreases |s| - i
  {
    if i < |s| && !(Space(s[i]) && LStrip(s[i..]) != [] && LStrip(s[i..])[0] == '#') {
      CommentStartsThere(s, i + 1);
    }
  }

  /** Printed scalars are trimmed, nonempty, and plain ones contain no hash and no quote. */
  lemma {:induction false} FormattedShape(v: Value)
    requires OkValue(v)
    ensures var f := FormatScalar(v);
      && f != [] && !Space(f[0]) && !Space(f[|f| - 1])
      && (f[0] != '\'' ==> !HasSpecial(f))
  {
    var f := FormatScalar(v);
    match v
    case Token(t) =>
      assert !Special(f[0]);
    case Text(t) =>
      if NeedsQuotes(t) {
        assert f[0] == '\'' && f[|f| - 1] == '\'';
      } else {
        TrimmedEnds(t);
      }
  }

  /** No comment can start inside a plain printed scalar. */
  lemma {:induction false} NoCommentInside(f: string, c: string, i: nat)
    requires f != [] && !Space(f[|f| - 1]) && !HasSpecial(f) && TrailingComment(c) && i <= |f|
    ensures CommentStart(f + c, i) == |f|
    decreases |f| - i
  {
    var s := f + c;
    if i == |f| {
      assert s[i..] == c;
      if c == [] {
        assert i == |s|;
      }
    } else {
      assert s[i..] == f[i..] + c;
      FirstNonSpace(f[i..], c);
      NoCommentInside(f, c, i + 1);
    }
  }

  lemma {:induction false} FirstNonSpace(f: string, c: string)
    requires f != [] && !Space(f[|f| - 1]) && !HasSpecial(f)
    ensures LStrip(f + c) != [] && LStrip(f + c)[0] != '#'
    decreases |f|
  {
    assert (f + c)[0] == f[0];
    if Space(f[0]) {
      assert |f| > 1;
      assert (f + c)[1..] == f[1..] + c;
      assert !HasSpecial(f[1..]) by {
        forall i | 0 <= i < |f[1..]| ensures !Special(f[1..][i]) {
          assert f[1..][i] == f[i + 1];
        }
      }
      FirstNonSpace(f[1..], c);
    } else {
      assert !Special(f[0]);
    }
  }

  lemma {:induction false} QuotedEndsThere(head: string, t: string, c: string)
    requires c == [] || c[0] != '\''
    ensures QuotedEnd(head + Doubled(t) + "'" + c, |head|) == |head| + |Doubled(t)| + 1
    decreases |t|
  {
    var s := head + Doubled(t) + "'" + c;
    if t == [] {
      assert s[|head|] == '\'';
      assert |head| + 1 < |s| ==> s[|head| + 1] == c[0];
    } else if t[0] == '\'' {
      var head' := head + "''";
      assert s == head' + Doubled(t[1..]) + "'" + c;
      assert s[|head|] == '\'' && s[|head| + 1] == '\'';
      QuotedEndsThere(head', t[1..], c);
    } else {
      var head' := head + [t[0]];
      assert s == head' + Doubled(t[1..]) + "'" + c;
      assert s[|head|] == t[0];
      QuotedEndsThere(head', t[1..], c);
    }
  }

  lemma {:induction false} QuotedReadsBack(t: string, c: string)
    requires TrailingComment(c)
    ensures ScalarText(" '" + Doubled(t) + "'" + c) == "'" + Doubled(t) + "'"
  {
    var f := "'" + Doubled(t) + "'";
    var rest := " '" + Doubled(t) + "'" + c;
    assert rest[1..] == f + c && (f + c)[0] == '\'';
    assert LStrip(rest) == LStrip(f + c) == f + c;
    assert f + c == "'" + Doubled(t) + "'" + c;
    QuotedEndsThere("'", t, c);
    assert (f + c)[..|f|] == f;
  }

  lemma {:induction false} PlainReadsBack(f: string, c: string)
    requires f != [] && !Space(f[0]) && !Space(f[|f| - 1]) && !HasSpecial(f) && TrailingComment(c)
    ensures ScalarText(" " + f + c) == f
  {
    var p := " " + f;
    var rest := p + c;
    assert rest[1..] == f + c && (f + c)[0] == f[0] && !Special(f[0]);
    assert LStrip(rest) == LStrip(f + c) == f + c;
    assert p[|p| - 1] == f[|f| - 1];
    forall i | 0 <= i < |p| ensures !Special(p[i]) {
      assert i > 0 ==> p[i] == f[i - 1];
    }
    NoCommentInside(p, c, 0);
    assert rest[..|p|] == p && p[1..] == f;
    assert LStrip(p) == LStrip(f) == f;
  }

  lemma {:induction false} NonBlank(f: string, c: string)
    requires f != [] && !Space(f[0])
    ensures !IsBlank(" " + f + c)
  {
    var rest := " " + f + c;
    assert rest[1..] == f + c && (f + c)[0] == f[0];
    assert LStrip(rest) == LStrip(f + c) == f + c;
    StripBlank(rest);
  }

  /** What is printed behind the colon is read back as exactly the printed scalar. */
  lemma {:induction false} PrintedReadsBack(v: Value, c: string)
    requires OkValue(v) && TrailingComment(c)
    ensures ScalarText(" " + FormatScalar(v) + c) == FormatScalar(v)
    ensures !IsBlank(" " + FormatScalar(v) + c)
  {
    FormattedShape(v);
    NonBlank(FormatScalar(v), c);
    match v
    case Token(t) => PlainReadsBack(t, c);
    case Text(t) =>
      if NeedsQuotes(t) {
        QuotedReadsBack(t, c);
        assert " " + FormatScalar(v) + c == " '" + Doubled(t) + "'" + c;
      } else {
        TrimmedEnds(t);
        PlainReadsBack(t, c);
      }
  }

  predicate OkKey(k: KeyLine) {
    k.key != [] && KeyStart(k.key[0]) && forall i :: 0 <= i < |k.key| ==> KeyChar(k.key[i])
  }

  function Print(k: KeyLine): string {
    Head(k) + ":" + k.rest
  }

  lemma {:induction false} PrintThenRead(k: KeyLine)
    requires OkKey(k)
    ensures Read(Print(k)) == Some(k)
  {
    HeadMatches(k);
    KeyIsNoComment(k);
  }

  /** The key line a rewrite produces. */
  function Rewritten(k: KeyLine, v: Value): KeyLine {
    k.(rest := " " + FormatScalar(v) + k.rest[CommentStart(k.rest, 0)..])
  }

  lemma {:induction false} ReplacePrints(k: KeyLine, v: Value)
    requires OkKey(k)
    ensures ReplaceValueLine(Print(k), v) == Print(Rewritten(k, v))
  {
    var head := Head(k);
    ColonEndsHead(head, k.rest);
    assert Print(k)[..|head|] == head && Print(k)[|head| + 1..] == k.rest;
  }

  /** A rewritten key line keeps its indentation, key and comment and carries the new scalar. */
  lemma {:induction false} RewrittenLine(line: string, v: Value)
    requires Read(line).Some? && OkValue(v)
    ensures
      var k := Read(line).value;
      && Read(ReplaceValueLine(line, v)) == Some(Rewritten(k, v))
      && ScalarText(Rewritten(k, v).rest) == FormatScalar(v) && !IsBlank(Rewritten(k, v).rest)
  {
    var k := Read(line).value;
    KeyLineParts(line);
    ReplacePrints(k, v);
    PrintThenRead(Rewritten(k, v));
    CommentStartsThere(k.rest, 0);
    PrintedReadsBack(v, k.rest[CommentStart(k.rest, 0)..]);
  }

  lemma {:induction false} ColonEndsHead(head: string, rest: string)
    requires forall i :: 0 <= i < |head| ==> head[i] != ':'
    ensures FirstColon(head + ":" + rest) == |head|
    decreases |head|
  {
    var s := head + ":" + rest;
    if head != [] {
      assert s[0] == head[0] && s[1..] == head[1..] + ":" + rest;
      ColonEndsHead(head[1..], rest);
    }
  }

  lemma {:induction false} KeyIsNoComment(k: KeyLine)
    requires k.key != [] && KeyStart(k.key[0])
    ensures var line := Head(k) + ":" + k.rest; !IsBlank(line) && !IsComment(line)
  {
    var pad := seq(k.indent, _ => ' ');
    var tail := k.key + ":" + k.rest;
    assert Head(k) + ":" + k.rest == pad + tail;
    LeadingSpace(pad, tail);
    assert tail[0] == k.key[0];
    assert LStrip(tail) == tail;
    StripBlank(pad + tail);
  }

  /** The index of line `i`'s entry among the entries. */
  function EntryIndex(lines: seq<string>, i: nat): nat
    requires i <= |lines|
  {
    |Entries(lines[..i])|
  }

  /**
   Rewriting the value of a scalar line changes exactly that line's entry: same path, new scalar; every
   other entry, and every path, stays.
   */
  lemma {:induction false} RewriteChangesOneEntry(lines: seq<string>, i: nat, v: Value)
    requires i < |lines| && OkValue(v) && Read(lines[i]).Some? && !IsBlank(Read(lines[i]).value.rest)
    ensures
      var lines' := lines[i := ReplaceValueLine(lines[i], v)];
      var e := EntryIndex(lines, i);
      && e < |Entries(lines)| && Paths(lines)[i] == Some(Entries(lines)[e].path)
      && Entries(lines') == Entries(lines)[e := Pair(Entries(lines)[e].path, FormatScalar(v))]
  {
    var a, x, b := lines[..i], lines[i], lines[i + 1..];
    var x' := ReplaceValueLine(x, v);
    Parts(lines, i, x');
    RewriteAround(a, x, b, v);
    PathThere(lines, i);
  }

  lemma {:induction false} RewriteAround(a: seq<string>, x: string, b: seq<string>, v: Value)
    requires OkValue(v) && Read(x).Some? && !IsBlank(Read(x).value.rest)
    ensures
      var es, es', e := Entries(a + [x] + b), Entries(a + [ReplaceValueLine(x, v)] + b), |Entries(a)|;
      && e < |es| && Some(es[e].path) == PathIn(StackAfter(a), x)
      && es' == es[e := Pair(es[e].path, FormatScalar(v))]
  {
    var x' := ReplaceValueLine(x, v);
    var stack := StackAfter(a);
    RewrittenLine(x, v);
    SameStep(stack, x, x');
    EntriesAround(a, x, b);
    EntriesAround(a, x', b);
    var old1, new1 := EntryOf(stack, x)[0], EntryOf(stack, x')[0];
    UpdateMiddle(Entries(a), old1, new1, EntriesFrom(Push(stack, x), b));
  }

  /** Two scalar lines with the same indentation and key leave the same stack and have the same path. */
  lemma {:induction false} SameStep(stack: seq<Item>, x: string, y: string)
    requires Read(x).Some? && Read(y).Some? && !IsBlank(Read(x).value.rest) && !IsBlank(Read(y).value.rest)
    requires Read(x).value.indent == Read(y).value.indent && Read(x).value.key == Read(y).value.key
    ensures Push(stack, x) == Push(stack, y)
    ensures EntryOf(stack, x) == [Pair(PathIn(stack, x).value, ScalarText(Read(x).value.rest))]
    ensures EntryOf(stack, y) == [Pair(PathIn(stack, x).value, ScalarText(Read(y).value.rest))]
  {
  }

  lemma {:induction false} EntriesAround(a: seq<string>, x: string, b: seq<string>)
    ensures Entries(a + [x] + b) == Entries(a) + EntryOf(StackAfter(a), x) + EntriesFrom(Push(StackAfter(a), x), b)
  {
    ReadOn(a + [x], b);
    ReadOneMore(a, x);
  }

  lemma {:induction false} UpdateMiddle<T>(p: seq<T>, x: T, y: T, r: seq<T>)
    ensures (p + [x] + r)[|p|] == x && (p + [x] + r)[|p| := y] == p + [y] + r
  {
  }

  lemma {:induction false} RewriteKeepsPaths(a: seq<string>, x: string, b: seq<string>, v: Value)
    requires OkValue(v) && Read(x).Some? && !IsBlank(Read(x).value.rest)
    ensures Paths(a + [ReplaceValueLine(x, v)] + b) == Paths(a + [x] + b)
  {
    var x' := ReplaceValueLine(x, v);
    RewrittenLine(x, v);
    SameStep(StackAfter(a), x, x');
    PathAround(a, x, b);
    PathAround(a, x', b);
  }

  /** A rewrite moves no path and no entry. */
  lemma {:induction false} RewriteKeepsShape(lines: seq<string>, i: nat, v: Value, j: nat)
    requires i < |lines| && OkValue(v) && Read(lines[i]).Some? && !IsBlank(Read(lines[i]).value.rest) && j <= |lines|
    ensures
      var lines' := lines[i := ReplaceValueLine(lines[i], v)];
      Paths(lines') == Paths(lines) && EntryIndex(lines', j) == EntryIndex(lines, j)
  {
    var a, x, b := lines[..i], lines[i], lines[i + 1..];
    var x' := ReplaceValueLine(x, v);
    var lines' := lines[i := x'];
    Parts(lines, i, x');
    RewriteKeepsPaths(a, x, b, v);
    if j <= i {
      assert lines'[..j] == lines[..j];
    } else {
      Parts(lines[..j], i, x');
      assert lines[..j][..i] == a && lines[..j][i + 1..] == lines[i + 1..j] && lines'[..j] == lines[..j][i := x'];
      RewriteAround(a, x, lines[i + 1..j], v);
    }
  }

  // ---------- rewriting a header ----------

  /** The first key line of `b` is indented deeper than `indent`. */
  predicate FirstKeyDeeper(b: seq<string>, indent: nat) {
    b != [] && if Read(b[0]).None? then FirstKeyDeeper(b[1..], indent) else Read(b[0]).value.indent > indent
  }

  /** Losing the innermost open header changes what follows exactly if the next key line was inside it. */
  lemma {:induction false} OrphansExact(base: seq<Item>, item: Item, b: seq<string>)
    requires base != [] ==> base[|base| - 1].indent < item.indent
    ensures PathsFrom(base + [item], b) == PathsFrom(base, b) <==> !FirstKeyDeeper(b, item.indent)
    decreases |b|
  {
    if b != [] {
      var stack := base + [item];
      var rest := PathsFrom(Push(stack, b[0]), b[1..]);
      assert PathsFrom(stack, b)[0] == PathIn(stack, b[0]) && PathsFrom(base, b)[0] == PathIn(base, b[0]);
      match Read(b[0])
      case None =>
        OrphansExact(base, item, b[1..]);
        assert PathsFrom(stack, b)[1..] == PathsFrom(stack, b[1..]) &&
            PathsFrom(base, b)[1..] == PathsFrom(base, b[1..]);
      case Some(k) =>
        LastOfAppend(base, item);
        if k.indent > item.indent {
          assert PopTo(stack, k.indent) == stack && PopTo(base, k.indent) == base;
          assert |PathOf(stack, k)| == |PathOf(base, k)| + 1;
        } else {
          assert PopTo(stack, k.indent) == PopTo(base, k.indent);
        }
    }
  }

  /** What is left after popping is less deep than the line that popped. */
  lemma {:induction false} PoppedShallower(stack: seq<Item>, indent: nat)
    ensures var base := PopTo(stack, indent); base != [] ==> base[|base| - 1].indent < indent
    decreases |stack|
  {
    if stack != [] && stack[|stack| - 1].indent >= indent {
      PoppedShallower(stack[..|stack| - 1], indent);
    }
  }

  /**
   Exactly when rewriting a key line leaves every path alone: it is a scalar line, or no key line stands inside
   its block.
   */
  lemma {:induction false} RewriteKeepsPathsExact(lines: seq<string>, i: nat, v: Value)
    requires i < |lines| && OkValue(v) && Read(lines[i]).Some?
    ensures Paths(lines[i := ReplaceValueLine(lines[i], v)]) == Paths(lines) <==>
      !IsBlank(Read(lines[i]).value.rest) || !FirstKeyDeeper(lines[i + 1..], Read(lines[i]).value.indent)
  {
    var a, x, b := lines[..i], lines[i], lines[i + 1..];
    var x' := ReplaceValueLine(x, v);
    var k := Read(x).value;
    Parts(lines, i, x');
    if !IsBlank(k.rest) {
      RewriteKeepsPaths(a, x, b, v);
    } else {
      RewrittenLine(x, v);
      var stack := StackAfter(a);
      var base, item := PopTo(stack, k.indent), Item(k.indent, k.key);
      PathAround(a, x, b);
      PathAround(a, x', b);
      PoppedShallower(stack, k.indent);
      OrphansExact(base, item, b);
      assert Push(stack, x) == base + [item] && Push(stack, x') == base && PathIn(stack, x) == PathIn(stack, x');
      SameFront(Paths(a) + [PathIn(stack, x)], PathsFrom(base + [item], b), PathsFrom(base, b));
    }
  }

  lemma {:induction false} SameFront<T>(front: seq<T>, a: seq<T>, b: seq<T>)
    ensures front + a == front + b <==> a == b
  {
    if front + a == front + b {
      assert a == (front + a)[|front|..] && b == (front + b)[|front|..];
    }
  }

  /** Only scalar lines may be declared: rewriting a header orphans the child below it. */
  lemma {:induction false} RewritingHeaderBreaksPaths(header: KeyLine, child: KeyLine, v: Value)
    requires OkKey(header) && OkKey(child) && OkValue(v) && IsBlank(header.rest) && header.indent < child.indent
    ensures PathIn(StackAfter([Print(header)]), Print(child)) == Some([header.key, child.key])
    ensures PathIn(StackAfter([ReplaceValueLine(Print(header), v)]), Print(child)) == Some([child.key])
  {
    PrintThenRead(child);
    PrintThenRead(header);
    AloneOnStack(Print(header), Print(child));
    RewrittenLine(Print(header), v);
    AloneOnStack(ReplaceValueLine(Print(header), v), Print(child));
  }

  lemma {:induction false} AloneOnStack(first: string, second: string)
    requires Read(first).Some? && Read(second).Some? && Read(first).value.indent < Read(second).value.indent
    ensures
      var k, c := Read(first).value, Read(second).value;
      PathIn(StackAfter([first]), second) == Some(if IsBlank(k.rest) then [k.key, c.key] else [c.key])
  {
    var k := Read(first).value;
    assert [first][..0] == [];
    assert StackAfter([first][..0]) == [];
    var stack := StackAfter([first]);
    assert stack == if IsBlank(k.rest) then [Item(k.indent, k.key)] else [];
    assert PopTo(stack, Read(second).value.indent) == stack;
    assert Keys(stack) + [Read(second).value.key]
        == if IsBlank(k.rest) then [k.key, Read(second).value.key] else [Read(second).value.key];
  }
}
