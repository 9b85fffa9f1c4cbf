/** What two comment rules that speak of one comment run do to each other. */
module FacingRules {
  import opened Options
  import opened Sequences
  import opened ConfigLines
  import opened CommentBlocks
  import opened Splices
  import opened Reconcile

  lemma {:induction false} TwoEdits(plan: seq<Outcome>)
    requires |plan| == 2 && plan[0].edit.Some? && plan[1].edit.Some?
    requires plan[0].edit.value.start == plan[1].edit.value.start
    ensures EditsOf(plan) == [plan[0].edit.value, plan[1].edit.value]
    ensures SortedEdits(EditsOf(plan)) == [plan[1].edit.value, plan[0].edit.value]
  {
    var e1, e2 := plan[0].edit.value, plan[1].edit.value;
    assert plan[..1][..0] == [] && plan[..1][0] == plan[0];
    assert EditsOf(plan[..1]) == EditsOf([]) + [e1];
    assert [e1, e2][..1] == [e1] && [e1][..0] == [];
    assert SortedEdits([e1]) == InsertEdit(SortedEdits([]), e1);
  }

  /** The rule's edit is on a range of `lines` and at least as long. */
  lemma {:induction false} RuleEdit(
    lines: seq<string>, local: seq<string>, x: CommentRule, edit: Option<Splice>, extra: seq<string>)
    requires RuleMet(lines, local, x, edit, extra) && edit.Some?
    ensures var e := edit.value; e.start <= e.end <= |lines| && e.end - e.start <= |e.lines|
  {
    EditKeepsRun(lines, local, x, edit, extra);
    KeptIsLonger(lines, edit.value, extra);
  }

  lemma {:induction false} PlanOnOneRange(lines: seq<string>, plan: seq<Outcome>)
    requires |plan| == 2 && plan[0].edit.Some? && plan[1].edit.Some?
    requires
      var e1, e2 := plan[0].edit.value, plan[1].edit.value;
      e1.start == e2.start <= e1.end == e2.end <= |lines| && e1.end - e1.start <= |e1.lines|
    ensures
      var e1, e2 := plan[0].edit.value, plan[1].edit.value;
      BottomUp(lines, SortedEdits(EditsOf(plan)))
        == lines[..e1.start] + e2.lines + e1.lines[e1.end - e1.start..] + lines[e1.end..]
  {
    TwoEdits(plan);
    TwoOnOneRange(lines, plan[0].edit.value, plan[1].edit.value);
  }

  lemma {:induction false} FacingRange(
    lines: seq<string>, local: seq<string>, x: CommentRule, y: CommentRule, a: Outcome, b: Outcome)
    requires RuleMet(lines, local, x, a.edit, a.extra) && RuleMet(lines, local, y, b.edit, b.extra)
    requires Facing(lines, x, y) && a.edit.Some? && b.edit.Some?
    ensures
      var e1, e2 := a.edit.value, b.edit.value;
      e1.start == e2.start <= e1.end == e2.end <= |lines| && e1.end - e1.start <= |e1.lines|
  {
    FacingExact(lines, local, x, y, a, b);
    RuleEdit(lines, local, x, a.edit, a.extra);
  }

  lemma {:induction false} TwoOnOneRange(lines: seq<string>, e1: Splice, e2: Splice)
    requires e1.start == e2.start <= e1.end == e2.end <= |lines| && e1.end - e1.start <= |e1.lines|
    ensures BottomUp(lines, [e2, e1]) == lines[..e1.start] + e2.lines + e1.lines[e1.end - e1.start..] + lines[e1.end..]
  {
    SameRangeExact(lines, e1.start, e1.end, e1.lines, e2.lines);
    assert e1 == Splice(e1.start, e1.end, e1.lines) && e2 == Splice(e1.start, e1.end, e2.lines);
  }

  lemma {:induction false} TopLevelKey(stack: seq<Item>, k: KeyLine)
    requires k.indent == 0
    ensures PathOf(stack, k) == [k.key]
  {
    PoppedEmpty(stack);
    assert Keys([]) == [];
  }

  lemma {:induction false} PoppedEmpty(stack: seq<Item>)
    ensures PopTo(stack, 0) == []
    decreases |stack|
  {
    if stack != [] {
      PoppedEmpty(stack[..|stack| - 1]);
    }
  }

  /** A key line without indentation. */
  predicate TopLine(line: string, key: string) {
    Read(line).Some? && Read(line).value.indent == 0 && Read(line).value.key == key
  }

  lemma {:induction false} TopPath(lines: seq<string>, i: nat, key: string)
    requires i < |lines| && TopLine(lines[i], key)
    ensures Paths(lines)[i] == Some([key]) && !IsComment(lines[i])
  {
    PathThere(lines, i);
    TopLevelKey(StackAfter(lines[..i]), Read(lines[i]).value);
  }

  lemma {:induction false} CommentPath(lines: seq<string>, i: nat)
    requires i < |lines| && IsComment(lines[i])
    ensures Paths(lines)[i] == None
  {
    PathThere(lines, i);
  }

  /** Two key lines with one comment between them. */
  ghost predicate MainText(main: seq<string>, m: string, a: string, b: string) {
    |main| == 3 && TopLine(main[0], a) && main[1] == m && TopLine(main[2], b) && IsComment(m) && a != b
  }

  /** The live file: `y`, `m` precede the second key, and the first key's block starts with `x`, `m`. */
  ghost predicate LiveText(local: seq<string>, m: string, x: string, y: string, a: string, b: string) {
    && |local| == 6 && local[0..2] == [y, m] && TopLine(local[2], b) && TopLine(local[3], a) && local[4..6] == [x, m]
    && IsComment(x) && IsComment(y) && Strip(x) != Strip(m) && Strip(y) != Strip(m) && x != y
  }

  lemma {:induction false} MainPaths(main: seq<string>, m: string, a: string, b: string)
    requires MainText(main, m, a, b)
    ensures FindKey(Paths(main), [a]) == Some(0) && FindKey(Paths(main), [b]) == Some(2)
    ensures !IsComment(main[0]) && !IsComment(main[2])
  {
    TopPath(main, 0, a);
    CommentPath(main, 1);
    TopPath(main, 2, b);
    DifferentKeys(a, b);
    FoundAt(Paths(main), [a], 0);
    FoundAt(Paths(main), [b], 2);
  }

  lemma {:induction false} LiveLines(local: seq<string>, m: string, x: string, y: string, a: string, b: string)
    requires LiveText(local, m, x, y, a, b) && IsComment(m)
    ensures SixLines(local, a, b)
  {
    assert local[0] == local[0..2][0] && local[1] == local[0..2][1];
    assert local[4] == local[4..6][0] && local[5] == local[4..6][1];
  }

  /** Two comments, two keys, two comments. */
  ghost predicate SixLines(local: seq<string>, a: string, b: string) {
    && |local| == 6 && TopLine(local[2], b) && TopLine(local[3], a)
    && IsComment(local[0]) && IsComment(local[1]) && IsComment(local[4]) && IsComment(local[5])
  }

  lemma {:induction false} SixPaths(local: seq<string>, a: string, b: string)
    requires SixLines(local, a, b)
    ensures Paths(local)[0] == None && Paths(local)[1] == None
    ensures Paths(local)[2] == Some([b]) && Paths(local)[3] == Some([a])
    ensures !IsComment(local[2]) && !IsComment(local[3])
  {
    CommentPath(local, 0);
    CommentPath(local, 1);
    TopPath(local, 2, b);
    TopPath(local, 3, a);
  }

  lemma {:induction false} LiveFound(paths: seq<Option<Path>>, a: string, b: string)
    requires |paths| == 6 && a != b && paths[0] == None && paths[1] == None
    requires paths[2] == Some([b]) && paths[3] == Some([a])
    ensures FindKey(paths, [a]) == Some(3) && FindKey(paths, [b]) == Some(2)
  {
    DifferentKeys(a, b);
    FoundAt(paths, [b], 2);
    FoundAt(paths, [a], 3);
  }

  lemma {:induction false} LiveRuns(local: seq<string>)
    requires |local| == 6 && !IsComment(local[2]) && !IsComment(local[3])
    requires IsComment(local[0]) && IsComment(local[1]) && IsComment(local[4]) && IsComment(local[5])
    ensures RunAt(local, 3, false, 4, 6) && RunAt(local, 2, true, 0, 2)
  {
  }

  lemma {:induction false} LivePaths(local: seq<string>, m: string, x: string, y: string, a: string, b: string)
    requires LiveText(local, m, x, y, a, b) && IsComment(m) && a != b
    ensures FindKey(Paths(local), [a]) == Some(3) && FindKey(Paths(local), [b]) == Some(2)
    ensures RunAt(local, 3, false, 4, 6) && RunAt(local, 2, true, 0, 2)
  {
    LiveLines(local, m, x, y, a, b);
    SixPaths(local, a, b);
    LiveFound(Paths(local), a, b);
    LiveRuns(local);
  }

  lemma {:induction false} FirstEdit(
    main: seq<string>, local: seq<string>, m: string, x: string, y: string, a: string, b: string, o: Outcome)
    requires MainText(main, m, a, b) && LiveText(local, m, x, y, a, b)
    ensures RuleMet(main, local, CommentRule(a, false), o.edit, o.extra) ==>
      o == Outcome(Some(Splice(1, 2, [x, m])), [x])
  {
    if RuleMet(main, local, CommentRule(a, false), o.edit, o.extra) {
      MainPaths(main, m, a, b);
      LivePaths(local, m, x, y, a, b);
      OneRunEdit(main, local, CommentRule(a, false), o, 4, 6, m, x);
    }
  }

  lemma {:induction false} SecondEdit(
    main: seq<string>, local: seq<string>, m: string, x: string, y: string, a: string, b: string, o: Outcome)
    requires MainText(main, m, a, b) && LiveText(local, m, x, y, a, b)
    ensures RuleMet(main, local, CommentRule(b, true), o.edit, o.extra) ==>
      o == Outcome(Some(Splice(1, 2, [y, m])), [y])
  {
    if RuleMet(main, local, CommentRule(b, true), o.edit, o.extra) {
      MainPaths(main, m, a, b);
      LivePaths(local, m, x, y, a, b);
      OneRunEdit(main, local, CommentRule(b, true), o, 0, 2, m, y);
    }
  }

  lemma {:induction false} GlueAround<T>(main: seq<T>, m: T, y: T, x: T)
    requires |main| == 3
    ensures main[..1] + [y, m] + [x, m][1..] + main[2..] == [main[0], y, m, m, main[2]]
  {
  }

  lemma {:induction false} DifferentKeys(a: string, b: string)
    requires a != b
    ensures Some([a]) != Some([b])
  {
    assert [a][0] != [b][0];
  }

  lemma {:induction false} FoundAt(paths: seq<Option<Path>>, path: Path, i: nat)
    requires i < |paths| && paths[i] == Some(path) && forall j :: 0 <= j < i ==> paths[j] != Some(path)
    ensures FindKey(paths, path) == Some(i)
  {
  }

  lemma {:induction false} MiddleRun(main: seq<string>, i: nat, leading: bool, p: nat, q: nat)
    requires |main| == 3 && !IsComment(main[0]) && IsComment(main[1]) && !IsComment(main[2])
    requires i == (if leading then 2 else 0) && RunAt(main, i, leading, p, q)
    ensures p == 1 && q == 2
  {
    SameSideExact(main, i, i, leading, p, q, 1, 2);
  }

  /** The runs a rule compared. */
  lemma {:induction false} RuleRuns(main: seq<string>, local: seq<string>, rule: CommentRule, o: Outcome)
    returns (p: nat, q: nat, p': nat, q': nat)
    requires RuleMet(main, local, rule, o.edit, o.extra)
    requires FindKey(Paths(main), [rule.key]).Some? && FindKey(Paths(local), [rule.key]).Some?
    ensures RunAt(main, FindKey(Paths(main), [rule.key]).value, rule.leading, p, q)
    ensures RunAt(local, FindKey(Paths(local), [rule.key]).value, rule.leading, p', q')
    ensures RunEdit(main, p, q, local[p'..q'], o)
  {
    p, q, p', q' :|
      && RunAt(main, FindKey(Paths(main), [rule.key]).value, rule.leading, p, q)
      && RunAt(local, FindKey(Paths(local), [rule.key]).value, rule.leading, p', q')
      && o.extra == Filtered(main[p..q], local[p'..q'], false)
      && (o.edit.None? <==> o.extra == [])
      && (o.edit.Some? ==> KeepsRun(main, o.edit.value, o.extra) && o.edit.value.start == p && o.edit.value.end == q)
      && (o.edit.Some? ==> KeepsOrder(main[p..q], local[p'..q'], o.edit.value.lines));
  }

  ghost predicate RunEdit(main: seq<string>, p: nat, q: nat, run: seq<string>, o: Outcome)
    requires p <= q <= |main|
  {
    && o.extra == Filtered(main[p..q], run, false) && (o.edit.None? <==> o.extra == [])
    && (o.edit.Some? ==>
          KeepsRun(main, o.edit.value, o.extra) && o.edit.value.start == p && o.edit.value.end == q &&
          KeepsOrder(main[p..q], run, o.edit.value.lines))
  }

  /** The only block that keeps `m`, adds `x` and follows the live order is `x`, `m`. */
  lemma {:induction false} OneRunEdit(main: seq<string>, local: seq<string>, rule: CommentRule, o: Outcome,
                                      s: nat, e: nat, m: string, x: string)
    requires RuleMet(main, local, rule, o.edit, o.extra) && |main| == 3 && IsComment(m) && Strip(x) != Strip(m)
    requires main[1] == m && !IsComment(main[0]) && !IsComment(main[2])
    requires FindKey(Paths(main), [rule.key]) == Some(if rule.leading then 2 else 0)
    requires FindKey(Paths(local), [rule.key]).Some?
    requires RunAt(local, FindKey(Paths(local), [rule.key]).value, rule.leading, s, e) && local[s..e] == [x, m]
    ensures o == Outcome(Some(Splice(1, 2, [x, m])), [x])
  {
    var i, l := if rule.leading then 2 else 0, FindKey(Paths(local), [rule.key]).value;
    var p, q, p', q' := RuleRuns(main, local, rule, o);
    MiddleRun(main, i, rule.leading, p, q);
    SameSideExact(local, l, l, rule.leading, p', q', s, e);
    MiddleEdit(main, m, x, o);
  }

  lemma {:induction false} MiddleEdit(main: seq<string>, m: string, x: string, o: Outcome)
    requires |main| == 3 && main[1] == m && Strip(x) != Strip(m) && RunEdit(main, 1, 2, [x, m], o)
    ensures o == Outcome(Some(Splice(1, 2, [x, m])), [x])
  {
    OneSlice(main, m);
    assert o.extra == Filtered([m], [x, m], false);
    TwoLines(m, x, o.edit, o.extra);
  }

  lemma {:induction false} OneSlice(main: seq<string>, m: string)
    requires |main| == 3 && main[1] == m
    ensures main[1..2] == [m]
  {
  }

  lemma {:induction false} TwoLines(m: string, x: string, edit: Option<Splice>, extra: seq<string>)
    requires Strip(x) != Strip(m) && extra == Filtered([m], [x, m], false) && (edit.None? <==> extra == [])
    requires edit.Some? ==>
      && Filtered([m], edit.value.lines, true) == [m]
      && multiset(Filtered([m], edit.value.lines, false)) == multiset(extra)
      && KeepsOrder([m], [x, m], edit.value.lines)
    ensures extra == [x] && edit.Some? && edit.value.lines == [x, m]
  {
    OnlyMKnown(m, x);
    OnlyMKnown(m, m);
    TwoFiltered(m, x, m);
    TwoOf([x, m]);
    assert extra == [x];
    TwoLineBlock(m, x, edit.value.lines);
  }

  lemma {:induction false} OnlyMKnown(m: string, line: string)
    ensures Known([m], line) <==> Strip(line) == Strip(m)
  {
    assert [m][0] == m;
  }

  /** What `[m]` knows of two lines. */
  lemma {:induction false} TwoFiltered(m: string, a: string, b: string)
    ensures Filtered([m], [a] + [b], true) == (if Known([m], a) then [a] else []) + (if Known([m], b) then [b] else [])
    ensures Filtered([m], [a] + [b], false) == (if Known([m], a) then [] else [a]) + (if Known([m], b) then [] else [b])
  {
    FilteredAppend([m], [a], [b], true);
    FilteredAppend([m], [a], [b], false);
    FilteredOne([m], a, true);
    FilteredOne([m], b, true);
    FilteredOne([m], a, false);
    FilteredOne([m], b, false);
  }

  lemma {:induction false} TwoLineBlock(m: string, x: string, block: seq<string>)
    requires Strip(x) != Strip(m) && Filtered([m], block, true) == [m]
    requires multiset(Filtered([m], block, false)) == multiset{x}
    requires KeepsOrder([m], [x, m], block)
    ensures block == [x] + [m]
  {
    SplitCounts([m], block);
    OneElement(Filtered([m], block, false), x);
    var b0, b1 := block[0], block[1];
    TwoOf(block);
    OrderedPair(m, x, b0, b1);
    KnownSecond(m, b0, b1);
    assert [b1][0] == [m][0];
  }

  lemma {:induction false} OneElement(s: seq<string>, x: string)
    requires multiset(s) == multiset{x}
    ensures s == [x]
  {
    assert |s| == |multiset(s)|;
    assert s[0] in multiset(s);
  }

  lemma {:induction false} TwoOf<T>(s: seq<T>)
    requires |s| == 2
    ensures s == [s[0]] + [s[1]]
  {
  }

  lemma {:induction false} KnownSecond(m: string, b0: string, b1: string)
    requires Strip(b0) != Strip(m) && Strip(b1) == Strip(m)
    ensures Filtered([m], [b0] + [b1], true) == [b1] && Filtered([m], [b0] + [b1], false) == [b0]
  {
    OnlyMKnown(m, b0);
    OnlyMKnown(m, b1);
    TwoFiltered(m, b0, b1);
  }

  /** A block of two lines in the live order begins with the line like `x`. */
  lemma {:induction false} OrderedPair(m: string, x: string, b0: string, b1: string)
    requires Strip(x) != Strip(m) && KeepsOrder([m], [x, m], [b0] + [b1])
    ensures Strip(b0) == Strip(x) && Strip(b1) == Strip(m)
  {
    OnlyMKnown(m, x);
    assert SameOrder([m], [x, m]);
    LastOfAppend([b0], b1);
    LastOfAppend([x], m);
    assert [x] + [m] == [x, m];
    SubOne(x, b0);
    SubTwo(x, m, b0);
  }

  lemma {:induction false} SubOne(x: string, b: string)
    ensures SubStripped([x], [b]) <==> Strip(x) == Strip(b)
  {
    assert [x][..0] == [] && [b][..0] == [];
    assert !SubStripped([x], []);
  }

  lemma {:induction false} SubTwo(x: string, m: string, b: string)
    ensures !SubStripped([x] + [m], [b])
  {
    LastOfAppend([x], m);
    assert [b][..0] == [];
    assert !SubStripped([x], []) && !SubStripped([x] + [m], []);
  }

  lemma {:induction false} SplitCounts(main: seq<string>, s: seq<string>)
    ensures |s| == |Filtered(main, s, true)| + |Filtered(main, s, false)|
    decreases |s|
  {
    if s != [] {
      SplitCounts(main, s[..|s| - 1]);
    }
  }

  lemma {:induction false} LostLine(
    main: seq<string>, local: seq<string>, m: string, x: string, y: string, a: string, b: string, plan: seq<Outcome>)
    requires MainText(main, m, a, b) && LiveText(local, m, x, y, a, b)
    requires |plan| == 2 && plan[0] == Outcome(Some(Splice(1, 2, [x, m])), [x])
    requires plan[1] == Outcome(Some(Splice(1, 2, [y, m])), [y])
    ensures BottomUp(main, SortedEdits(EditsOf(plan))) == [main[0], y, m, m, main[2]]
    ensures x !in BottomUp(main, SortedEdits(EditsOf(plan)))
  {
    MainPaths(main, m, a, b);
    PlanOnOneRange(main, plan);
    GlueAround(main, m, y, x);
  }

  /**
   Of two edits on one run, the first one keeps only what is longer than the run; `plan` comes from the rules
   themselves.
   */
  lemma {:induction false} FacingRulesExact(
    lines: seq<string>, local: seq<string>, x: CommentRule, y: CommentRule, plan: seq<Outcome>)
    requires |plan| == 2 && RuleMet(lines, local, x, plan[0].edit, plan[0].extra)
    requires RuleMet(lines, local, y, plan[1].edit, plan[1].extra)
    requires Facing(lines, x, y) && plan[0].edit.Some? && plan[1].edit.Some?
    ensures
      var e1, e2 := plan[0].edit.value, plan[1].edit.value;
      && e1.start == e2.start <= e1.end == e2.end <= |lines| && e1.end - e1.start <= |e1.lines|
      && BottomUp(lines, SortedEdits(EditsOf(plan)))
           == lines[..e1.start] + e2.lines + e1.lines[e1.end - e1.start..] + lines[e1.end..]
  {
    FacingRange(lines, local, x, y, plan[0], plan[1]);
    PlanOnOneRange(lines, plan);
  }

  /**
   Inputs that lose a line, for any two keys and any comments: keeping both the first key's block and the second
   key's leading run drops `x` and doubles `m`, although each rule for itself keeps its lines.
   */
  lemma {:induction false} FacingRulesLoseALine(
    main: seq<string>, local: seq<string>, m: string, x: string, y: string, a: string, b: string, plan: seq<Outcome>)
    requires MainText(main, m, a, b) && LiveText(local, m, x, y, a, b) && |plan| == 2
    requires RuleMet(main, local, CommentRule(a, false), plan[0].edit, plan[0].extra)
    requires RuleMet(main, local, CommentRule(b, true), plan[1].edit, plan[1].extra)
    ensures plan[0].extra == [x] && plan[1].extra == [y]
    ensures BottomUp(main, SortedEdits(EditsOf(plan))) == [main[0], y, m, m, main[2]]
    ensures x !in BottomUp(main, SortedEdits(EditsOf(plan)))
  {
    FirstEdit(main, local, m, x, y, a, b, plan[0]);
    SecondEdit(main, local, m, x, y, a, b, plan[1]);
    LostLine(main, local, m, x, y, a, b, plan);
  }
}
