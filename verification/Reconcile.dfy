/**
 The reconciliation: declared values rewritten in `main`'s lines, dropped comment blocks put back, the result
 checked.
 */
module Reconcile {
  import opened Options
  import opened Sequences
  import opened ConfigLines
  import opened ConfigMerge
  import opened CommentBlocks
  import opened Splices
  import opened DeclaredValues
  import opened ConfigDocument
  import opened MergeCheck

  /** A comment block to keep: the run above the key, or the run at the top of its mapping. */
  datatype CommentRule = CommentRule(key: string, leading: bool)

  // ---------- planning the comment edits ----------

  method ExtraLines(main: seq<string>, local: seq<string>) returns (extra: seq<string>)
    ensures extra == Filtered(main, local, false)
  {
    extra := [];
    var n := 0;
    while n < |local|
      invariant 0 <= n <= |local| && extra == Filtered(main, local[..n], false)
    {
      LocalPrefix(main, local, n);
      KnownIsIndexed(main, local[n]);
      if IndexOfStripped(main, Strip(local[n])).None? {
        extra := extra + [local[n]];
      }
      n := n + 1;
    }
    assert local[..n] == local;
  }

  /** The edit replaces one whole comment run by a block that keeps the run's lines and adds `extra`. */
  ghost predicate KeepsRun(lines: seq<string>, e: Splice, extra: seq<string>) {
    && MaximalRun(lines, e.start, e.end) && AllComments(e.lines)
    && var run := lines[e.start..e.end];
       Filtered(run, e.lines, true) == run && multiset(Filtered(run, e.lines, false)) == multiset(extra)
  }

  lemma {:induction false} KeyIsNotComment(lines: seq<string>, i: nat)
    requires i < |lines| && Paths(lines)[i].Some?
    ensures !IsComment(lines[i])
  {
    PathThere(lines, i);
  }

  /** The comment run a rule speaks of: directly above the key line, or directly below it. */
  ghost predicate RunAt(lines: seq<string>, index: nat, leading: bool, start: nat, end: nat) {
    MaximalRun(lines, start, end) && if leading then end == index else start == index + 1
  }

  method Run(lines: seq<string>, index: nat, leading: bool) returns (start: nat, end: nat)
    requires index < |lines| && Paths(lines)[index].Some?
    ensures RunAt(lines, index, leading, start, end) && AllComments(lines[start..end])
  {
    KeyIsNotComment(lines, index);
    var block;
    if leading {
      block := LeadingComments(lines, index);
      start, end := index - |block|, index;
    } else {
      block := LeadingBlockComments(lines, index);
      start, end := index + 1, index + 1 + |block|;
    }
  }

  /** When the common lines stand in one order on both sides, the block follows the live run's order too. */
  ghost predicate KeepsOrder(run: seq<string>, localRun: seq<string>, block: seq<string>) {
    DistinctStripped(run) && SameOrder(run, localRun) ==> SubStripped(localRun, block)
  }

  /** An edit exactly when the live run has lines the other one lacks. */
  method Replacement(merged: seq<string>, start: nat, end: nat, localRun: seq<string>)
    returns (edit: Option<Splice>, extra: seq<string>)
    requires MaximalRun(merged, start, end) && AllComments(merged[start..end]) && AllComments(localRun)
    ensures extra == Filtered(merged[start..end], localRun, false)
    ensures edit.Some? <==> extra != []
    ensures edit.Some? ==> KeepsRun(merged, edit.value, extra) && edit.value.start == start && edit.value.end == end
    ensures edit.Some? ==> KeepsOrder(merged[start..end], localRun, edit.value.lines)
  {
    edit := None;
    extra := ExtraLines(merged[start..end], localRun);
    if extra != [] {
      var block := MergeCommentBlock(merged[start..end], localRun);
      forall x | x in block ensures IsComment(x) {
        assert x in merged[start..end] || x in localRun;
      }
      edit := Some(Splice(start, end, block));
    }
  }

  /** What a comment rule asks for, given the key's first line in both files. */
  ghost predicate RuleMet(
    merged: seq<string>, local: seq<string>, rule: CommentRule, edit: Option<Splice>, extra: seq<string>) {
    var m, l := FindKey(Paths(merged), [rule.key]), FindKey(Paths(local), [rule.key]);
    if m.None? || l.None? then edit.None? && extra == []
    else
      exists s: nat, e: nat, s': nat, e': nat ::
        && RunAt(merged, m.value, rule.leading, s, e) && RunAt(local, l.value, rule.leading, s', e')
        && extra == Filtered(merged[s..e], local[s'..e'], false)
        && (edit.None? <==> extra == [])
        && (edit.Some? ==> KeepsRun(merged, edit.value, extra) && edit.value.start == s && edit.value.end == e)
        && (edit.Some? ==> KeepsOrder(merged[s..e], local[s'..e'], edit.value.lines))
  }

  method PlanRule(merged: seq<string>, local: seq<string>, rule: CommentRule)
    returns (edit: Option<Splice>, extra: seq<string>)
    ensures RuleMet(merged, local, rule, edit, extra)
  {
    edit, extra := None, [];
    var localIndex := FindKey(Paths(local), [rule.key]);
    var mergedIndex := FindKey(Paths(merged), [rule.key]);
    if localIndex.Some? && mergedIndex.Some? {
      var s', e' := Run(local, localIndex.value, rule.leading);
      var s, e := Run(merged, mergedIndex.value, rule.leading);
      edit, extra := Replacement(merged, s, e, local[s'..e']);
      assert RunAt(local, localIndex.value, rule.leading, s', e') &&
          RunAt(merged, mergedIndex.value, rule.leading, s, e);
    }
  }

  lemma {:induction false} EditKeepsRun(
    merged: seq<string>, local: seq<string>, rule: CommentRule, edit: Option<Splice>, extra: seq<string>)
    requires RuleMet(merged, local, rule, edit, extra)
    ensures edit.Some? ==> KeepsRun(merged, edit.value, extra)
  {
  }

  ghost predicate Planned(merged: seq<string>, edits: seq<Splice>, preserved: seq<seq<string>>) {
    |edits| == |preserved| && forall n :: 0 <= n < |edits| ==> KeepsRun(merged, edits[n], preserved[n])
  }

  /** What one rule led to. */
  datatype Outcome = Outcome(edit: Option<Splice>, extra: seq<string>)

  ghost function EditsOf(plan: seq<Outcome>): seq<Splice> {
    if plan == [] then []
    else
      var before, o := EditsOf(plan[..|plan| - 1]), plan[|plan| - 1];
      if o.edit.Some? then before + [o.edit.value] else before
  }

  ghost function ExtrasOf(plan: seq<Outcome>): seq<seq<string>> {
    if plan == [] then []
    else
      var before, o := ExtrasOf(plan[..|plan| - 1]), plan[|plan| - 1];
      if o.edit.Some? then before + [o.extra] else before
  }

  /** Every rule was followed, in rule order. */
  ghost predicate PlanFor(merged: seq<string>, local: seq<string>, rules: seq<CommentRule>, k: nat, plan: seq<Outcome>)
    requires k <= |rules|
  {
    |plan| == k && forall n :: 0 <= n < k ==> Followed(merged, local, rules, plan, n)
  }

  ghost predicate Followed(merged: seq<string>, local: seq<string>, rules: seq<CommentRule>, plan: seq<Outcome>, n: nat)
    requires n < |rules| && n < |plan|
  {
    RuleMet(merged, local, rules[n], plan[n].edit, plan[n].extra)
  }

  lemma {:induction false} PlanAdded(
    merged: seq<string>, local: seq<string>, rules: seq<CommentRule>, k: nat, plan: seq<Outcome>, o: Outcome)
    requires k < |rules| && PlanFor(merged, local, rules, k, plan) && RuleMet(merged, local, rules[k], o.edit, o.extra)
    ensures PlanFor(merged, local, rules, k + 1, plan + [o])
  {
    forall n | 0 <= n < k + 1 ensures Followed(merged, local, rules, plan + [o], n) {
      if n < k {
        assert Followed(merged, local, rules, plan, n);
      }
    }
  }

  lemma {:induction false} OneMoreEdit(plan: seq<Outcome>, o: Outcome)
    ensures EditsOf(plan + [o]) == if o.edit.Some? then EditsOf(plan) + [o.edit.value] else EditsOf(plan)
    ensures ExtrasOf(plan + [o]) == if o.edit.Some? then ExtrasOf(plan) + [o.extra] else ExtrasOf(plan)
  {
    LastOfAppend(plan, o);
  }

  /** The loop over the comment rules. */
  method PlanComments(merged: seq<string>, local: seq<string>, rules: seq<CommentRule>)
    returns (edits: seq<Splice>, preserved: seq<seq<string>>, ghost plan: seq<Outcome>)
    ensures Planned(merged, edits, preserved)
    ensures PlanFor(merged, local, rules, |rules|, plan) && edits == EditsOf(plan) && preserved == ExtrasOf(plan)
  {
    edits, preserved, plan := [], [], [];
    for k := 0 to |rules|
      invariant PlanFor(merged, local, rules, k, plan) && edits == EditsOf(plan) && preserved == ExtrasOf(plan)
    {
      var edit, extra := PlanRule(merged, local, rules[k]);
      PlanAdded(merged, local, rules, k, plan, Outcome(edit, extra));
      OneMoreEdit(plan, Outcome(edit, extra));
      plan := plan + [Outcome(edit, extra)];
      if edit.Some? {
        edits, preserved := edits + [edit.value], preserved + [extra];
      }
    }
    PlannedByRules(merged, local, rules, plan);
  }

  /** All planned edits keep their runs. */
  lemma {:induction false} PlannedByRules(
    merged: seq<string>, local: seq<string>, rules: seq<CommentRule>, plan: seq<Outcome>)
    requires PlanFor(merged, local, rules, |rules|, plan)
    ensures Planned(merged, EditsOf(plan), ExtrasOf(plan))
    decreases |plan|
  {
    if plan != [] {
      var n := |plan| - 1;
      PlanPrefix(merged, local, rules, plan, n);
      PlannedByRules(merged, local, rules[..n], plan[..n]);
      assert Followed(merged, local, rules, plan, n);
      EditKeepsRun(merged, local, rules[n], plan[n].edit, plan[n].extra);
    }
  }

  // ---------- applying them ----------

  /** A kept run never gets shorter. */
  lemma {:induction false} KeptIsLonger(merged: seq<string>, e: Splice, extra: seq<string>)
    requires KeepsRun(merged, e, extra)
    ensures e.end - e.start <= |e.lines| && AllComments(merged[e.start..e.end])
  {
    FilteredShorter(merged[e.start..e.end], e.lines, true);
    SliceOfComments(merged, e.start, e.end);
  }

  lemma {:induction false} FilteredShorter(main: seq<string>, s: seq<string>, known: bool)
    ensures |Filtered(main, s, known)| <= |s|
    decreases |s|
  {
    if s != [] {
      FilteredShorter(main, s[..|s| - 1], known);
    }
  }

  lemma {:induction false} PlannedCompatible(merged: seq<string>, edits: seq<Splice>, preserved: seq<seq<string>>)
    requires Planned(merged, edits, preserved)
    ensures forall i, j :: 0 <= i < |edits| && 0 <= j < |edits| ==> Compatible(edits[i], edits[j])
    ensures CommentEdits(merged, edits)
  {
    forall i, j | 0 <= i < |edits| && 0 <= j < |edits| ensures Compatible(edits[i], edits[j]) {
      RunsSameOrApart(merged, edits[i].start, edits[i].end, edits[j].start, edits[j].end);
    }
    forall i | 0 <= i < |edits|
      ensures edits[i].end - edits[i].start <= |edits[i].lines| && AllComments(merged[edits[i].start..edits[i].end])
    {
      KeptIsLonger(merged, edits[i], preserved[i]);
    }
  }

  /** Planned comment edits leave the document alone, whatever they add and even if two share a range. */
  lemma {:induction false} PlannedInvisible(merged: seq<string>, edits: seq<Splice>, preserved: seq<seq<string>>)
    requires Planned(merged, edits, preserved)
    ensures CommentEdits(merged, SortedEdits(edits)) && Nested(SortedEdits(edits))
    ensures Entries(BottomUp(merged, SortedEdits(edits))) == Entries(merged)
  {
    PlannedCompatible(merged, edits, preserved);
    SortedNested(edits);
    SortedElements(edits);
    SortedComments(merged, edits);
    SplicesAreInvisible(merged, SortedEdits(edits));
  }

  /** `merged[start:end] = replacement` for the sorted edits, last range first. */
  method ApplyEdits(merged: seq<string>, edits: seq<Splice>) returns (out: seq<string>)
    requires CommentEdits(merged, edits) && Nested(edits)
    ensures out == BottomUp(merged, edits)
  {
    out := merged;
    var n := |edits|;
    assert edits[..n] == edits;
    while n > 0
      invariant 0 <= n <= |edits| && CommentEdits(out, edits[..n])
      invariant BottomUp(out, edits[..n]) == BottomUp(merged, edits)
    {
      assert edits[..n][..n - 1] == edits[..n - 1];
      RestStillEdits(out, edits[..n]);
      n := n - 1;
      assert edits[..n + 1][n] == edits[n];
      out := out[..edits[n].start] + edits[n].lines + out[edits[n].end..];
    }
  }

  // ---------- every preserved line arrives ----------

  /** Two edits of one nonempty run: the later one would overwrite what the earlier one put there. */
  predicate Clash(a: Splice, b: Splice) {
    a.start == b.start && a.end == b.end && a.start < a.end
  }

  ghost predicate Clear(edits: seq<Splice>) {
    forall i, j :: 0 <= i < j < |edits| ==> !Clash(edits[i], edits[j])
  }

  lemma {:induction false} InsertClear(edits: seq<Splice>, e: Splice)
    requires Clear(edits) && forall i :: 0 <= i < |edits| ==> !Clash(edits[i], e)
    ensures Clear(InsertEdit(edits, e))
    decreases |edits|
  {
    if edits != [] && edits[0].start < e.start {
      InsertClear(edits[1..], e);
      InsertEditElements(edits[1..], e);
      var r := InsertEdit(edits[1..], e);
      forall j | 0 <= j < |r| ensures !Clash(edits[0], r[j]) {
        assert r[j] in r;
      }
    }
  }

  lemma {:induction false} SortedClear(edits: seq<Splice>)
    requires Clear(edits)
    ensures Clear(SortedEdits(edits))
    decreases |edits|
  {
    if edits != [] {
      var n := |edits| - 1;
      SortedClear(edits[..n]);
      SortedElements(edits[..n]);
      var before := SortedEdits(edits[..n]);
      forall i | 0 <= i < |before| ensures !Clash(before[i], edits[n]) {
        assert before[i] in edits[..n];
      }
      InsertClear(before, edits[n]);
    }
  }

  lemma {:induction false} ClearIsApart(edits: seq<Splice>)
    requires Nested(edits) && Clear(edits) && forall i :: 0 <= i < |edits| ==> edits[i].start <= edits[i].end
    ensures Apart(edits)
  {
    forall i, j | 0 <= i < j < |edits| ensures edits[i].end <= edits[j].start {
      assert !Clash(edits[i], edits[j]);
    }
  }

  lemma {:induction false} WovenHas(lines: seq<string>, from: nat, edits: seq<Splice>, n: nat, x: string)
    requires InRange(lines, edits) && Apart(edits) && n < |edits| && x in edits[n].lines
    requires from <= edits[0].start
    ensures x in Woven(lines, from, edits)
    decreases |edits|
  {
    if n > 0 {
      WovenHas(lines, edits[0].end, edits[1..], n - 1, x);
    }
  }

  lemma {:induction false} ExtraInBlock(merged: seq<string>, e: Splice, extra: seq<string>, x: string)
    requires KeepsRun(merged, e, extra)
    ensures x in extra ==> x in e.lines
    ensures x in e.lines && !Known(merged[e.start..e.end], x) ==> x in extra
  {
    var run := merged[e.start..e.end];
    assert x in extra <==> x in multiset(Filtered(run, e.lines, false));
    FilteredHas(run, e.lines, x);
    if x in extra {
      var i :| 0 <= i < |Filtered(run, e.lines, false)| && Filtered(run, e.lines, false)[i] == x;
      FilteredWithin(run, e.lines, false, i);
    }
  }

  /** If no two edits share a nonempty run, all of them take effect and every preserved line arrives. */
  lemma {:induction false} PreservedArrive(merged: seq<string>, edits: seq<Splice>, preserved: seq<seq<string>>)
    requires Planned(merged, edits, preserved) && Clear(edits)
    ensures Apart(SortedEdits(edits)) && InRange(merged, SortedEdits(edits))
    ensures BottomUp(merged, SortedEdits(edits)) == Woven(merged, 0, SortedEdits(edits))
    ensures forall x :: x in Inserts(preserved) ==> x in BottomUp(merged, SortedEdits(edits))
  {
    var r := SortedEdits(edits);
    PlannedInvisible(merged, edits, preserved);
    SortedClear(edits);
    SortedElements(edits);
    ClearIsApart(r);
    BottomUpIsSimultaneous(merged, r);
    forall x | x in Inserts(preserved) ensures x in Woven(merged, 0, r) {
      LineArrives(merged, edits, preserved, x);
    }
  }

  lemma {:induction false} LineArrives(merged: seq<string>, edits: seq<Splice>, preserved: seq<seq<string>>, x: string)
    requires Planned(merged, edits, preserved) && x in Inserts(preserved)
    requires Apart(SortedEdits(edits)) && InRange(merged, SortedEdits(edits))
    ensures x in Woven(merged, 0, SortedEdits(edits))
  {
    var m, l :| 0 <= m < |preserved| && 0 <= l < |preserved[m]| && preserved[m][l] == x;
    ExtraInBlock(merged, edits[m], preserved[m], x);
    SortedElements(edits);
    assert edits[m] in SortedEdits(edits);
    var n :| 0 <= n < |edits| && SortedEdits(edits)[n] == edits[m];
    WovenHas(merged, 0, SortedEdits(edits), n, x);
  }

  // ---------- the result is what the checker certifies ----------

  /** The trailing comment of a key line, with the gap before it. */
  function CommentOf(line: string): string {
    match Read(line)
    case None => ""
    case Some(k) => k.rest[CommentStart(k.rest, 0)..]
  }

  /** The parser reads what the rewrite puts behind the colon of a changed key's line back as the chosen value. */
  ghost predicate ParsesBack(c: Claim) {
    forall key, i :: key in c.changed && 0 <= i < |c.main| && FindKey(Paths(c.main), SplitDots(key)) == Some(i) ==>
      c.parse(" " + FormatScalar(c.changed[key]) + CommentOf(c.main[i])) == Some(c.changed[key])
  }

  lemma {:induction false} AfterColonIsRest(line: string)
    requires Read(line).Some?
    ensures AfterColon(line) == Read(line).value.rest
  {
    var k := Read(line).value;
    KeyLineParts(line);
    ColonEndsHead(Head(k), k.rest);
    assert line[|Head(k)| + 1..] == k.rest;
  }

  lemma {:induction false} SetLineIsOk(c: Claim, i: nat, line: string)
    requires i < |c.main| && LineSet(c.main, i, line, c.changed, true) && ParsesBack(c)
    requires forall key :: key in c.changed ==> OkValue(c.changed[key])
    ensures LineOk(c, i, line)
  {
    if line != c.main[i] {
      var key :|
        && key in c.changed && FindKey(Paths(c.main), SplitDots(key)) == Some(i) && Carries(line, c.changed[key])
        && line == ReplaceValueLine(c.main[i], c.changed[key]);
      JoinSplit(key);
      PathThere(c.main, i);
      RewrittenLine(c.main[i], c.changed[key]);
      AfterColonIsRest(line);
    }
  }

  ghost predicate AllLinesOk(c: Claim, lines: seq<string>) {
    |lines| == |c.main| && forall i :: 0 <= i < |lines| ==> LineOk(c, i, lines[i])
  }

  lemma {:induction false} SliceAccounted(c: Claim, lines: seq<string>, i: nat, k: nat)
    requires AllLinesOk(c, lines) && i <= k <= |lines|
    ensures Accounted(c, i, k, lines[i..k])
  {
    forall d | 0 <= d < k - i ensures LineOk(c, i + d, lines[i..k][d]) {
      assert lines[i..k][d] == lines[i + d];
    }
    AllOk(c, i, lines[i..k]);
  }

  /** A block whose known lines are a stretch of `lines` accounts for that stretch. */
  lemma {:induction false} BlockAccounted(c: Claim, lines: seq<string>, known: seq<string>, start: nat, s: seq<string>)
    returns (m: nat)
    requires AllLinesOk(c, lines) && start <= |lines| && Filtered(known, s, true) <= lines[start..]
    requires forall x :: x in s && !Known(known, x) ==> x in c.inserts
    ensures m == start + |Filtered(known, s, true)| <= |lines| && Accounted(c, start, m, s)
    decreases |s|
  {
    m := start;
    if s != [] {
      var pre, x := s[..|s| - 1], s[|s| - 1];
      var f := Filtered(known, pre, true);
      var n := BlockAccounted(c, lines, known, start, pre);
      if Known(known, x) {
        NextLineIs(lines, start, f, x);
      }
      m := BlockGrows(c, lines, start, n, pre, x, Known(known, x));
      NextPrefix(s, |s| - 1);
      assert s[..|s|] == s;
    }
  }

  lemma {:induction false} BlockGrows(
    c: Claim, lines: seq<string>, start: nat, n: nat, pre: seq<string>, x: string, known: bool)
    returns (m: nat)
    requires AllLinesOk(c, lines) && n <= |lines| && Accounted(c, start, n, pre)
    requires if known then n < |lines| && lines[n] == x else x in c.inserts
    ensures m == (if known then n + 1 else n) && Accounted(c, start, m, pre + [x])
  {
    if known {
      KnownLine(c, lines, start, n, pre);
      m := n + 1;
    } else {
      ExtraLine(c, start, n, pre, x);
      m := n;
    }
  }

  lemma {:induction false} NextLineIs(lines: seq<string>, start: nat, f: seq<string>, x: string)
    requires start <= |lines| && f + [x] <= lines[start..]
    ensures start + |f| < |lines| && lines[start + |f|] == x
  {
    assert lines[start..][|f|] == (f + [x])[|f|];
  }

  lemma {:induction false} KnownLine(c: Claim, lines: seq<string>, start: nat, n: nat, pre: seq<string>)
    requires AllLinesOk(c, lines) && n < |lines| && Accounted(c, start, n, pre)
    ensures Accounted(c, start, n + 1, pre + [lines[n]])
  {
    SliceAccounted(c, lines, n, n + 1);
    assert lines[n..n + 1] == [lines[n]];
    AccountedAppend(c, start, n, n + 1, pre, lines[n..n + 1]);
  }

  lemma {:induction false} ExtraLine(c: Claim, start: nat, n: nat, pre: seq<string>, x: string)
    requires n <= |c.main| && x in c.inserts && Accounted(c, start, n, pre)
    ensures Accounted(c, start, n, pre + [x])
  {
    AllInserted(c, n, [x]);
    AccountedAppend(c, start, n, n, pre, [x]);
  }

  /** The edit's block is the run it replaces, with allowed lines in between. */
  ghost predicate FitsClaim(c: Claim, lines: seq<string>, e: Splice) {
    && e.start <= e.end <= |lines|
    && Filtered(lines[e.start..e.end], e.lines, true) == lines[e.start..e.end]
    && forall x :: x in e.lines && !Known(lines[e.start..e.end], x) ==> x in c.inserts
  }

  lemma {:induction false} EditAccounted(c: Claim, lines: seq<string>, e: Splice)
    requires AllLinesOk(c, lines) && FitsClaim(c, lines, e)
    ensures Accounted(c, e.start, e.end, e.lines)
  {
    SplitAt(lines, e.start, e.end);
    var m := BlockAccounted(c, lines, lines[e.start..e.end], e.start, e.lines);
  }

  lemma {:induction false} WovenAccounted(c: Claim, lines: seq<string>, from: nat, edits: seq<Splice>)
    requires AllLinesOk(c, lines) && Apart(edits) && from <= |lines|
    requires forall n :: 0 <= n < |edits| ==> FitsClaim(c, lines, edits[n])
    requires edits != [] ==> from <= edits[0].start
    ensures Accounted(c, from, |lines|, Woven(lines, from, edits))
    decreases |edits|
  {
    if edits == [] {
      SliceAccounted(c, lines, from, |lines|);
      assert lines[from..] == lines[from..|lines|];
    } else {
      var e := edits[0];
      var rest := Woven(lines, e.end, edits[1..]);
      WovenAccounted(c, lines, e.end, edits[1..]);
      SliceAccounted(c, lines, from, e.start);
      EditAccounted(c, lines, e);
      AccountedAppend(c, from, e.start, e.end, lines[from..e.start], e.lines);
      AccountedAppend(c, from, e.end, |lines|, lines[from..e.start] + e.lines, rest);
    }
  }

  /** With no clash, the reconciled text is `main`'s lines with declared values, plus the preserved comments. */
  lemma {:induction false} ReconciledIsAccounted(
    c: Claim, merged: seq<string>, edits: seq<Splice>, preserved: seq<seq<string>>)
    requires OnlyDeclared(c.main, merged, c.changed, true) && ParsesBack(c) && c.inserts == Inserts(preserved)
    requires forall key :: key in c.changed ==> OkValue(c.changed[key])
    requires Planned(merged, edits, preserved) && Clear(edits)
    ensures Accounted(c, 0, |c.main|, BottomUp(merged, SortedEdits(edits)))
  {
    var r := SortedEdits(edits);
    PreservedArrive(merged, edits, preserved);
    SortedElements(edits);
    forall i | 0 <= i < |merged| ensures LineOk(c, i, merged[i]) {
      SetLineIsOk(c, i, merged[i]);
    }
    forall n | 0 <= n < |r| ensures FitsClaim(c, merged, r[n]) {
      assert r[n] in edits;
      var m :| 0 <= m < |edits| && edits[m] == r[n];
      forall x | x in r[n].lines && !Known(merged[r[n].start..r[n].end], x) ensures x in c.inserts {
        ExtraInBlock(merged, edits[m], preserved[m], x);
        assert x in preserved[m];
      }
    }
    WovenAccounted(c, merged, 0, r);
  }

  // ---------- in terms of the inputs ----------

  /** Same paths, same comment lines in the same places. */
  ghost predicate SameComments(a: seq<string>, b: seq<string>) {
    && |a| == |b| && Paths(a) == Paths(b)
    && forall i :: 0 <= i < |a| ==> (IsComment(a[i]) <==> IsComment(b[i])) && (IsComment(a[i]) ==> a[i] == b[i])
  }

  /** Rewriting values touches no comment. */
  lemma {:induction false} RewritingKeepsComments(
    main: seq<string>, merged: seq<string>, changed: map<string, Value>, exact: bool)
    requires OnlyDeclared(main, merged, changed, exact) && Paths(merged) == Paths(main)
    ensures SameComments(merged, main)
  {
    forall i | 0 <= i < |main| && merged[i] != main[i] ensures !IsComment(main[i]) && !IsComment(merged[i]) {
      assert LineSet(main, i, merged[i], changed, exact);
      KeyIsNotComment(main, i);
    }
  }

  lemma {:induction false} SameRuns(a: seq<string>, b: seq<string>, s: nat, e: nat)
    requires SameComments(a, b) && MaximalRun(a, s, e)
    ensures MaximalRun(b, s, e) && a[s..e] == b[s..e]
  {
    forall i | s <= i < e ensures IsComment(b[i]) && a[i] == b[i] {
      assert IsComment(a[i]);
    }
  }

  /** So what a rule asks of the rewritten text is what it asks of `main`. */
  lemma {:induction false} RuleMetInMain(
    a: seq<string>, b: seq<string>, local: seq<string>, rule: CommentRule, edit: Option<Splice>, extra: seq<string>)
    requires SameComments(a, b) && RuleMet(a, local, rule, edit, extra)
    ensures RuleMet(b, local, rule, edit, extra)
  {
    var m, l := FindKey(Paths(a), [rule.key]), FindKey(Paths(local), [rule.key]);
    if m.Some? && l.Some? {
      var s: nat, e: nat, s': nat, e': nat :|
        && RunAt(a, m.value, rule.leading, s, e) && RunAt(local, l.value, rule.leading, s', e')
        && extra == Filtered(a[s..e], local[s'..e'], false)
        && (edit.None? <==> extra == [])
        && (edit.Some? ==> KeepsRun(a, edit.value, extra) && edit.value.start == s && edit.value.end == e)
        && (edit.Some? ==> KeepsOrder(a[s..e], local[s'..e'], edit.value.lines));
      SameRuns(a, b, s, e);
      assert RunAt(b, m.value, rule.leading, s, e);
    }
  }

  /** Both rules speak of one and the same comment run. */
  predicate Facing(lines: seq<string>, x: CommentRule, y: CommentRule) {
    var i, j := FindKey(Paths(lines), [x.key]), FindKey(Paths(lines), [y.key]);
    i.Some? && j.Some? &&
    if x.leading == y.leading then i == j
    else if x.leading then j.value < i.value && OnlyComments(lines, j.value + 1, i.value)
    else i.value < j.value && OnlyComments(lines, i.value + 1, j.value)
  }

  predicate OnlyComments(lines: seq<string>, s: nat, e: nat)
    requires e <= |lines|
  {
    forall i :: s <= i < e ==> IsComment(lines[i])
  }

  ghost predicate NoFacing(lines: seq<string>, rules: seq<CommentRule>) {
    forall i, j :: 0 <= i < j < |rules| ==> !Facing(lines, rules[i], rules[j])
  }

  /** Two runs above, or two runs below, key lines are the same run exactly for one key line. */
  lemma {:induction false} SameSideExact(
    lines: seq<string>, i: nat, j: nat, leading: bool, s: nat, e: nat, s': nat, e': nat)
    requires RunAt(lines, i, leading, s, e) && RunAt(lines, j, leading, s', e')
    ensures s == s' && e == e' <==> i == j
  {
    RunsSameOrApart(lines, s, e, s', e');
  }

  /** The run above line `i` and the run below line `j` are one run exactly if only comments stand in between. */
  lemma {:induction false} OppositeSidesExact(lines: seq<string>, i: nat, s: nat, e: nat, j: nat, s': nat, e': nat)
    requires i < |lines| && j < |lines| && !IsComment(lines[i]) && !IsComment(lines[j])
    requires RunAt(lines, i, true, s, e) && RunAt(lines, j, false, s', e')
    ensures j < i && OnlyComments(lines, j + 1, i) ==> s == s' && e == e'
    ensures s == s' && e == e' && s < e ==> j < i && OnlyComments(lines, j + 1, i)
  {
    if j < i && OnlyComments(lines, j + 1, i) {
      assert MaximalRun(lines, j + 1, i);
      SameSideExact(lines, i, i, true, s, e, j + 1, i);
      SameSideExact(lines, j, j, false, s', e', j + 1, i);
    }
  }

  /** Two rules' edits are on one range if the rules face each other, and only then if the range is not empty. */
  lemma {:induction false} FacingExact(
    lines: seq<string>, local: seq<string>, x: CommentRule, y: CommentRule, a: Outcome, b: Outcome)
    requires RuleMet(lines, local, x, a.edit, a.extra) && RuleMet(lines, local, y, b.edit, b.extra)
    requires a.edit.Some? && b.edit.Some?
    ensures Facing(lines, x, y) ==> a.edit.value.start == b.edit.value.start && a.edit.value.end == b.edit.value.end
    ensures Clash(a.edit.value, b.edit.value) ==> Facing(lines, x, y)
  {
    RuleRange(lines, local, x, a.edit, a.extra);
    RuleRange(lines, local, y, b.edit, b.extra);
    var i, j := FindKey(Paths(lines), [x.key]).value, FindKey(Paths(lines), [y.key]).value;
    var s, e, s', e' := a.edit.value.start, a.edit.value.end, b.edit.value.start, b.edit.value.end;
    KeyIsNotComment(lines, i);
    KeyIsNotComment(lines, j);
    if x.leading == y.leading {
      SameSideExact(lines, i, j, x.leading, s, e, s', e');
    } else if x.leading {
      OppositeSidesExact(lines, i, s, e, j, s', e');
    } else {
      OppositeSidesExact(lines, j, s', e', i, s, e);
    }
  }

  lemma {:induction false} RuleRange(
    lines: seq<string>, local: seq<string>, x: CommentRule, edit: Option<Splice>, extra: seq<string>)
    requires RuleMet(lines, local, x, edit, extra) && edit.Some?
    ensures var i := FindKey(Paths(lines), [x.key]);
      i.Some? && RunAt(lines, i.value, x.leading, edit.value.start, edit.value.end)
  {
  }

  /** An edit of the plan comes from one of the rules. */
  lemma {:induction false} EditFromRule(plan: seq<Outcome>, e: Splice) returns (n: nat)
    requires e in EditsOf(plan)
    ensures n < |plan| && plan[n].edit == Some(e)
    decreases |plan|
  {
    var last := |plan| - 1;
    if plan[last].edit == Some(e) {
      n := last;
    } else {
      n := EditFromRule(plan[..last], e);
    }
  }

  lemma {:induction false} PlanPrefix(
    lines: seq<string>, local: seq<string>, rules: seq<CommentRule>, plan: seq<Outcome>, k: nat)
    requires PlanFor(lines, local, rules, |rules|, plan) && k <= |rules|
    ensures PlanFor(lines, local, rules[..k], k, plan[..k])
  {
    forall n | 0 <= n < k ensures Followed(lines, local, rules[..k], plan[..k], n) {
      assert Followed(lines, local, rules, plan, n);
    }
  }

  /** If no two rules speak of the same run, no two edits clash. */
  lemma {:induction false} NoFacingNoClash(
    lines: seq<string>, local: seq<string>, rules: seq<CommentRule>, plan: seq<Outcome>)
    requires PlanFor(lines, local, rules, |rules|, plan) && NoFacing(lines, rules)
    ensures Clear(EditsOf(plan))
    decreases |plan|
  {
    if plan != [] {
      var n := |plan| - 1;
      var before := EditsOf(plan[..n]);
      PlanPrefix(lines, local, rules, plan, n);
      NoFacingNoClash(lines, local, rules[..n], plan[..n]);
      if plan[n].edit.Some? {
        forall i | 0 <= i < |before| ensures !Clash(before[i], plan[n].edit.value) {
          var m := EditFromRule(plan[..n], before[i]);
          if Clash(before[i], plan[n].edit.value) {
            assert Followed(lines, local, rules, plan, m) && Followed(lines, local, rules, plan, n);
            FacingExact(lines, local, rules[m], rules[n], plan[m], plan[n]);
          }
        }
      }
    }
  }

  lemma {:induction false} PlanInMain(
    a: seq<string>, b: seq<string>, local: seq<string>, rules: seq<CommentRule>, plan: seq<Outcome>)
    requires SameComments(a, b) && PlanFor(a, local, rules, |rules|, plan)
    ensures PlanFor(b, local, rules, |rules|, plan)
    ensures NoFacing(b, rules) ==> Clear(EditsOf(plan))
  {
    forall n | 0 <= n < |rules| ensures Followed(b, local, rules, plan, n) {
      assert Followed(a, local, rules, plan, n);
      RuleMetInMain(a, b, local, rules[n], plan[n].edit, plan[n].extra);
    }
    if NoFacing(b, rules) {
      NoFacingNoClash(b, local, rules, plan);
    }
  }

  // ---------- the whole ----------

  /** The comment edits, planned and applied. */
  method PutBackComments(lines: seq<string>, local: seq<string>, rules: seq<CommentRule>)
    returns (out: seq<string>, preserved: seq<seq<string>>, ghost plan: seq<Outcome>)
    ensures PlanFor(lines, local, rules, |rules|, plan) && preserved == ExtrasOf(plan)
    ensures Planned(lines, EditsOf(plan), preserved) && out == BottomUp(lines, SortedEdits(EditsOf(plan)))
    ensures Entries(out) == Entries(lines)
  {
    var edits;
    edits, preserved, plan := PlanComments(lines, local, rules);
    PlannedInvisible(lines, edits, preserved);
    out := ApplyEdits(lines, SortedEdits(edits));
  }

  lemma {:induction false} ChoicesOk(rules: seq<ValueRule>, inp: Inputs)
    requires OkInputs(inp)
    ensures forall key :: key in Choices(rules, inp) ==> OkValue(Choices(rules, inp)[key])
    decreases |rules|
  {
    if rules != [] {
      ChoicesOk(rules[..|rules| - 1], inp);
    }
  }

  lemma {:induction false} AsPlanned(c: Claim, rewritten: seq<string>, local: seq<string>, comments: seq<CommentRule>,
                  plan: seq<Outcome>, preserved: seq<seq<string>>, exact: bool)
    requires forall key :: key in c.changed ==> OkValue(c.changed[key])
    requires OnlyDeclared(c.main, rewritten, c.changed, exact)
    requires Paths(rewritten) == Paths(c.main) && c.inserts == Inserts(preserved)
    requires PlanFor(rewritten, local, comments, |comments|, plan) && Planned(rewritten, EditsOf(plan), preserved)
    ensures PlanFor(c.main, local, comments, |comments|, plan)
    ensures NoFacing(c.main, comments) ==>
      forall x :: x in c.inserts ==> x in BottomUp(rewritten, SortedEdits(EditsOf(plan)))
    ensures exact && NoFacing(c.main, comments) && ParsesBack(c) ==>
      Accounted(c, 0, |c.main|, BottomUp(rewritten, SortedEdits(EditsOf(plan))))
  {
    RewritingKeepsComments(c.main, rewritten, c.changed, exact);
    PlanInMain(rewritten, c.main, local, comments, plan);
    if NoFacing(c.main, comments) {
      PreservedArrive(rewritten, EditsOf(plan), preserved);
      if exact && ParsesBack(c) {
        ReconciledIsAccounted(c, rewritten, EditsOf(plan), preserved);
      }
    }
  }

  /**
   `reconcile`. The document of the result is `main`'s with exactly the choices put in, whatever comments are
   put back: each declared key holds the operator's timeout, the live value or `main`'s, as its rule says. If no
   two comment rules speak of the same run, every live comment line that `main` lacks arrives, and the result is
   accounted for line by line; an accepted result always is.
   */
  method Reconcile(
    main: seq<string>, local: seq<string>, values: seq<ValueRule>, comments: seq<CommentRule>, inp: Inputs,
    parse: string -> Option<Value>, sameDocument: seq<string> -> Option<bool>,
    diff: (seq<string>, seq<string>) -> seq<Opcode>)
    returns (merged: seq<string>, preserved: seq<seq<string>>, accepted: bool, ghost plan: seq<Outcome>)
    requires OkInputs(inp) && forall a, b :: ValidScript(diff(a, b), a, b)
    ensures DeclaredScalars(main, values) ==> Entries(merged) == WithValues(main, Entries(main), values, inp)
    ensures DeclaredScalars(main, values) && DeclaredOnce(Entries(main), values) ==>
      Document(Entries(merged)) == Put(Document(Entries(main)), Choices(values, inp))
    ensures DeclaredScalars(main, values) && DeclaredOnce(Entries(main), values) && DistinctKeys(values) ==>
      var before, after := Document(Entries(main)), Document(Entries(merged));
      && after.Keys == before.Keys
      && (forall r :: r in values && At(r) in before ==> ValueAsRuled(r, inp, before[At(r)], after[At(r)]))
      && (forall p :: p in before && (forall r :: r in values ==> At(r) != p) ==> after[p] == before[p])
    ensures DeclaredScalars(main, values) ==>
      PlanFor(main, local, comments, |comments|, plan) && preserved == ExtrasOf(plan)
    ensures DeclaredScalars(main, values) && NoFacing(main, comments) ==>
      forall x :: x in Inserts(preserved) ==> x in merged
    ensures
      var c := Claim(main, Choices(values, inp), Inserts(preserved), parse);
      accepted || (DeclaredScalars(main, values) && DistinctKeys(values) && NoFacing(main, comments) && ParsesBack(c))
      ==> Accounted(c, 0, |main|, merged)
    ensures accepted ==> sameDocument(merged) == Some(true) && forall r :: r in values ==> !Refused(main, r, inp)
  {
    var rewritten, deltas, problems := RewriteValues(main, values, inp);
    merged, preserved, plan := PutBackComments(rewritten, local, comments);
    var c := Claim(main, Changed(deltas), Inserts(preserved), parse);
    if DeclaredScalars(main, values) {
      ChoicesOk(values, inp);
      AsPlanned(c, rewritten, local, comments, plan, preserved, DistinctKeys(values));
    }
    if DeclaredOnce(Entries(main), values) {
      ValuesAsDocument(main, values, inp);
      if DistinctKeys(values) {
        ValuesMeant(Document(Entries(main)), values, inp);
      }
    }
    var issues := VerifyMerged(c, merged, preserved, sameDocument(merged), diff(main, merged));
    accepted := problems == [] && issues == [];
  }
}
