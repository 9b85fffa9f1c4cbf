/** Replacing ranges of lines, bottom-up, and what it does to the document. */
module Splices {
  import opened Sequences
  import opened ConfigLines

  datatype Splice = Splice(start: nat, end: nat, lines: seq<string>)

  /** `merged[start:end] = lines`. */
  function Applied(lines: seq<string>, e: Splice): seq<string>
    requires e.start <= e.end <= |lines|
  {
    lines[..e.start] + e.lines + lines[e.end..]
  }

  ghost predicate InRange(lines: seq<string>, edits: seq<Splice>) {
    forall i :: 0 <= i < |edits| ==> edits[i].start <= edits[i].end <= |lines|
  }

  /** Ascending, non-overlapping ranges. */
  ghost predicate Apart(edits: seq<Splice>) {
    forall i, j :: 0 <= i < j < |edits| ==> edits[i].end <= edits[j].start
  }

  /** Each range separate from, or the same as, any later one, and never growing the text's tail away. */
  ghost predicate Nested(edits: seq<Splice>) {
    forall i, j :: 0 <= i < j < |edits| ==>
      edits[i].end <= edits[j].start || (edits[i].start == edits[j].start && edits[i].end == edits[j].end)
  }

  /** Comment lines replaced by at least as many comment lines. */
  ghost predicate CommentEdits(lines: seq<string>, edits: seq<Splice>) {
    forall i :: 0 <= i < |edits| ==>
      var e := edits[i];
      && e.start <= e.end <= |lines| && AllComments(lines[e.start..e.end])
      && AllComments(e.lines) && e.end - e.start <= |e.lines|
  }

  /** All ranges replaced at once, reading from the front. */
  function Woven(lines: seq<string>, from: nat, edits: seq<Splice>): seq<string>
    requires from <= |lines|
    decreases |edits|
  {
    if edits == [] then lines[from..]
    else
      var e := edits[0];
      if from <= e.start <= e.end <= |lines| then lines[from..e.start] + e.lines + Woven(lines, e.end, edits[1..])
        else []
  }

  lemma {:induction false} AppliedTail(lines: seq<string>, e: Splice, from: nat)
    requires from <= e.start <= e.end <= |lines|
    ensures Applied(lines, e)[from..] == lines[from..e.start] + e.lines + lines[e.end..]
  {
    SplitAt(lines, from, e.start);
    Regroup(lines[..from], lines[from..e.start], e.lines);
    Regroup(lines[..from], lines[from..e.start] + e.lines, lines[e.end..]);
    TailFrom(lines[..from], lines[from..e.start] + e.lines + lines[e.end..], from);
  }

  lemma {:induction false} AppliedFront(lines: seq<string>, e: Splice, from: nat, to: nat)
    requires from <= to <= e.start <= e.end <= |lines|
    ensures from <= to <= |Applied(lines, e)| && Applied(lines, e)[from..to] == lines[from..to]
  {
  }

  lemma {:induction false} WovenOne(lines: seq<string>, from: nat, e: Splice)
    requires from <= e.start <= e.end <= |lines|
    ensures Woven(lines, from, [e]) == lines[from..e.start] + e.lines + lines[e.end..]
  {
    assert [e][1..] == [];
  }

  /** Taking the last range out first gives the same text. */
  lemma {:induction false} WovenLastFirst(lines: seq<string>, from: nat, edits: seq<Splice>)
    requires edits != [] && InRange(lines, edits) && Apart(edits) && from <= edits[0].start
    ensures
      var n := |edits| - 1;
      var e := edits[n];
      from <= |Applied(lines, e)| && Woven(lines, from, edits) == Woven(Applied(lines, e), from, edits[..n])
    decreases |edits|
  {
    var n := |edits| - 1;
    var e, first := edits[n], edits[0];
    var lines' := Applied(lines, e);
    if n == 0 {
      assert edits[..0] == [];
      WovenOne(lines, from, e);
      assert edits == [e];
      AppliedTail(lines, e, from);
    } else {
      assert first.end <= e.start;
      FirstAndLast(edits);
      WovenLastFirst(lines, first.end, edits[1..]);
      AppliedFront(lines, e, from, first.start);
    }
  }

  lemma {:induction false} FirstAndLast<T>(s: seq<T>)
    requires |s| > 1
    ensures var n := |s| - 1;
      s[1..][n - 1] == s[n] && s[..n][1..] == s[1..][..n - 1] && s[..n][0] == s[0]
  {
  }

  function BottomUp(lines: seq<string>, edits: seq<Splice>): seq<string>
    decreases |edits|
  {
    if edits == [] then lines
    else
      var e := edits[|edits| - 1];
      if e.start <= e.end <= |lines| then BottomUp(Applied(lines, e), edits[..|edits| - 1]) else lines
  }

  /** Bottom-up splicing of disjoint ranges is simultaneous substitution. */
  lemma {:induction false} BottomUpIsSimultaneous(lines: seq<string>, edits: seq<Splice>)
    requires InRange(lines, edits) && Apart(edits)
    ensures BottomUp(lines, edits) == Woven(lines, 0, edits)
    decreases |edits|
  {
    if edits != [] {
      var n := |edits| - 1;
      var lines' := Applied(lines, edits[n]);
      WovenLastFirst(lines, 0, edits);
      forall i | 0 <= i < n ensures edits[i].start <= edits[i].end <= |lines'| {
        assert edits[i].end <= edits[n].start;
      }
      BottomUpIsSimultaneous(lines', edits[..n]);
    }
  }

  /**
   Two edits of one range: the second replaces what the first put there, up to the length of the range, and only
   the rest of the first one's lines stays.
   */
  lemma {:induction false} SameRangeExact(
    lines: seq<string>, start: nat, end: nat, first: seq<string>, second: seq<string>)
    requires start <= end <= |lines| && end - start <= |first|
    ensures BottomUp(lines, [Splice(start, end, second), Splice(start, end, first)])
         == lines[..start] + second + first[end - start..] + lines[end..]
  {
    var e1, e2 := Splice(start, end, first), Splice(start, end, second);
    LastOfAppend([e2], e1);
    assert [e2, e1] == [e2] + [e1];
    var once := Applied(lines, e1);
    FrontAndRest(lines[..start], first, lines[end..], end);
    assert [e2][..0] == [];
    assert BottomUp(once, [e2]) == Applied(once, e2);
    Regroup(lines[..start] + second, first[end - start..], lines[end..]);
  }

  lemma {:induction false} FrontAndRest(front: seq<string>, first: seq<string>, back: seq<string>, end: nat)
    requires |front| <= end <= |front| + |first|
    ensures (front + first + back)[..|front|] == front
    ensures (front + first + back)[end..] == first[end - |front|..] + back
  {
    Regroup(front, first, back);
    assert (front + first + back)[end..] == (first + back)[end - |front|..];
    TailFrom(first, back, end - |front|);
  }

  /**
   Exactly which lines of the first edit are lost: those the second one, the rest of the first and the text
   around do not have.
   */
  lemma {:induction false} SameRangeLosesExact(
    lines: seq<string>, start: nat, end: nat, first: seq<string>, second: seq<string>, x: string)
    requires start <= end <= |lines| && end - start <= |first| && x in first
    ensures x !in BottomUp(lines, [Splice(start, end, second), Splice(start, end, first)]) <==>
      x !in lines[..start] && x !in second && x !in first[end - start..] && x !in lines[end..]
  {
    SameRangeExact(lines, start, end, first, second);
  }

  /** After the last range is replaced, the other edits still fit. */
  lemma {:induction false} RestStillEdits(lines: seq<string>, edits: seq<Splice>)
    requires CommentEdits(lines, edits) && Nested(edits) && edits != []
    ensures CommentEdits(Applied(lines, edits[|edits| - 1]), edits[..|edits| - 1])
  {
    var n := |edits| - 1;
    var lines' := Applied(lines, edits[n]);
    forall i | 0 <= i < n
      ensures edits[i].start <= edits[i].end <= |lines'| && AllComments(lines'[edits[i].start..edits[i].end])
    {
      StillComments(lines, edits[n], edits[i]);
    }
  }

  /** Comment splices never change the document, even when two of them hit the same range. */
  lemma {:induction false} SplicesAreInvisible(lines: seq<string>, edits: seq<Splice>)
    requires CommentEdits(lines, edits) && Nested(edits)
    ensures Entries(BottomUp(lines, edits)) == Entries(lines)
    decreases |edits|
  {
    if edits != [] {
      var n := |edits| - 1;
      var e := edits[n];
      var lines' := Applied(lines, e);
      CommentsAreInvisible(lines[..e.start], lines[e.start..e.end], e.lines, lines[e.end..]);
      SplitAt(lines, e.start, e.end);
      SplitAt(lines, e.end, |lines|);
      RestStillEdits(lines, edits);
      SplicesAreInvisible(lines', edits[..n]);
    }
  }

  lemma {:induction false} StillComments(lines: seq<string>, e: Splice, d: Splice)
    requires d.start <= d.end <= |lines| && e.start <= e.end <= |lines| && e.end - e.start <= |e.lines|
    requires AllComments(lines[d.start..d.end]) && AllComments(e.lines)
    requires d.end <= e.start || (d.start == e.start && d.end == e.end)
    ensures d.end <= |Applied(lines, e)| && AllComments(Applied(lines, e)[d.start..d.end])
  {
    var lines' := Applied(lines, e);
    if d.end <= e.start {
      assert lines'[d.start..d.end] == lines[d.start..d.end];
    } else {
      assert lines'[d.start..d.end] == e.lines[..d.end - d.start];
    }
  }

  /** The sorted edit list: descending starts, equal ones in rule order; kept here from the top down. */
  function InsertEdit(edits: seq<Splice>, e: Splice): seq<Splice> {
    if edits == [] || edits[0].start >= e.start then [e] + edits else [edits[0]] + InsertEdit(edits[1..], e)
  }

  lemma {:induction false} InsertEditElements(edits: seq<Splice>, e: Splice)
    ensures |InsertEdit(edits, e)| == |edits| + 1
    ensures forall x :: x in InsertEdit(edits, e) <==> x == e || x in edits
    decreases |edits|
  {
    if edits != [] && edits[0].start < e.start {
      InsertEditElements(edits[1..], e);
      assert edits == [edits[0]] + edits[1..];
    }
  }

  /** Two ranges that are the same or do not touch. */
  predicate Compatible(a: Splice, b: Splice) {
    a.end < b.start || b.end < a.start || (a.start == b.start && a.end == b.end)
  }

  ghost predicate AllCompatible(edits: seq<Splice>, e: Splice) {
    forall i :: 0 <= i < |edits| ==> Compatible(edits[i], e) && edits[i].start <= edits[i].end
  }

  /** `e` may stand in front of all of `edits`. */
  ghost predicate FitsBefore(e: Splice, edits: seq<Splice>) {
    forall j :: 0 <= j < |edits| ==> e.end <= edits[j].start || (e.start == edits[j].start && e.end == edits[j].end)
  }

  lemma {:induction false} NestedCons(e: Splice, edits: seq<Splice>)
    requires Nested(edits) && FitsBefore(e, edits)
    ensures Nested([e] + edits)
  {
  }

  lemma {:induction false} InsertEditFits(d: Splice, edits: seq<Splice>, e: Splice)
    requires FitsBefore(d, edits) && FitsBefore(d, [e])
    ensures FitsBefore(d, InsertEdit(edits, e))
    decreases |edits|
  {
    assert d.end <= [e][0].start || (d.start == [e][0].start && d.end == [e][0].end);
    if edits != [] && edits[0].start < e.start {
      InsertEditFits(d, edits[1..], e);
    }
  }

  lemma {:induction false} InsertEditNests(edits: seq<Splice>, e: Splice)
    requires Nested(edits) && AllCompatible(edits, e) && e.start <= e.end
    requires Ascending(edits)
    ensures Nested(InsertEdit(edits, e))
    decreases |edits|
  {
    if edits != [] && edits[0].start < e.start {
      var d, rest := edits[0], edits[1..];
      InsertEditNests(rest, e);
      assert FitsBefore(d, rest);
      assert Compatible(d, e);
      InsertEditFits(d, rest, e);
      NestedCons(d, InsertEdit(rest, e));
    } else {
      forall j | 0 <= j < |edits|
        ensures e.end <= edits[j].start || (e.start == edits[j].start && e.end == edits[j].end) {
        assert Compatible(edits[j], e) && edits[0].start <= edits[j].start;
      }
      NestedCons(e, edits);
    }
  }

  lemma {:induction false} InsertEditSorted(edits: seq<Splice>, e: Splice)
    requires Ascending(edits)
    ensures Ascending(InsertEdit(edits, e))
    decreases |edits|
  {
    if edits != [] && edits[0].start < e.start {
      var rest := edits[1..];
      InsertEditSorted(rest, e);
      InsertEditElements(rest, e);
      var r := InsertEdit(rest, e);
      forall j | 0 <= j < |r| ensures edits[0].start <= r[j].start {
        assert r[j] in r;
      }
    }
  }

  /** `sorted(edits, key=start, reverse=True)`, listed from the top down. */
  function SortedEdits(edits: seq<Splice>): seq<Splice> {
    if edits == [] then [] else InsertEdit(SortedEdits(edits[..|edits| - 1]), edits[|edits| - 1])
  }

  ghost predicate Ascending(edits: seq<Splice>) {
    forall i, j :: 0 <= i < j < |edits| ==> edits[i].start <= edits[j].start
  }

  lemma {:induction false} SortedElements(edits: seq<Splice>)
    ensures |SortedEdits(edits)| == |edits| && Ascending(SortedEdits(edits))
    ensures forall x :: x in SortedEdits(edits) <==> x in edits
    decreases |edits|
  {
    if edits != [] {
      var n := |edits| - 1;
      SortedElements(edits[..n]);
      InsertEditElements(SortedEdits(edits[..n]), edits[n]);
      InsertEditSorted(SortedEdits(edits[..n]), edits[n]);
      assert edits == edits[..n] + [edits[n]];
    }
  }

  lemma {:induction false} SortedNested(edits: seq<Splice>)
    requires forall i, j :: 0 <= i < |edits| && 0 <= j < |edits| ==> Compatible(edits[i], edits[j])
    requires forall i :: 0 <= i < |edits| ==> edits[i].start <= edits[i].end
    ensures Nested(SortedEdits(edits))
    decreases |edits|
  {
    if edits != [] {
      var n := |edits| - 1;
      var before := SortedEdits(edits[..n]);
      SortedNested(edits[..n]);
      SortedElements(edits[..n]);
      forall i | 0 <= i < |before| ensures Compatible(before[i], edits[n]) && before[i].start <= before[i].end {
        assert before[i] in edits[..n];
      }
      InsertEditNests(before, edits[n]);
    }
  }

  lemma {:induction false} SortedComments(lines: seq<string>, edits: seq<Splice>)
    requires CommentEdits(lines, edits)
    ensures CommentEdits(lines, SortedEdits(edits))
  {
    SortedElements(edits);
    var r := SortedEdits(edits);
    forall i | 0 <= i < |r| ensures CommentEdits(lines, [r[i]]) {
      assert r[i] in edits;
    }
    forall i | 0 <= i < |r|
      ensures var e := r[i];
        && e.start <= e.end <= |lines| && AllComments(lines[e.start..e.end]) && AllComments(e.lines)
        && e.end - e.start <= |e.lines|
    {
      assert CommentEdits(lines, [r[i]]) && [r[i]][0] == r[i];
    }
  }
}
