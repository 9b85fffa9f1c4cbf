/** Finding, merging and splicing comment blocks. */
module CommentBlocks {
  import opened Options
  import opened Sequences
  import opened ConfigLines

  // ---------- finding a block ----------

  /** The run of comment lines directly above line `index`: all of it, and nothing else. */
  method LeadingComments(lines: seq<string>, index: nat) returns (block: seq<string>)
    requires index <= |lines|
    ensures |block| <= index && block == lines[index - |block|..index] && AllComments(block)
    ensures |block| < index ==> !IsComment(lines[index - |block| - 1])
    ensures index < |lines| && !IsComment(lines[index]) ==> MaximalRun(lines, index - |block|, index)
  {
    block := [];
    var cursor: int := index - 1;
    while cursor >= 0 && IsComment(lines[cursor])
      invariant -1 <= cursor < index && |block| == index - 1 - cursor
      invariant block == lines[cursor + 1..index]
      invariant forall i :: cursor < i < index ==> IsComment(lines[i])
    {
      FrontSlice(lines, cursor, index);
      block := [lines[cursor]] + block;
      cursor := cursor - 1;
    }
    SliceOfComments(lines, index - |block|, index);
  }

  /** The run of comment lines directly below line `index`. */
  method LeadingBlockComments(lines: seq<string>, index: nat) returns (block: seq<string>)
    requires index < |lines|
    ensures index + 1 + |block| <= |lines| && block == lines[index + 1..index + 1 + |block|] && AllComments(block)
    ensures index + 1 + |block| < |lines| ==> !IsComment(lines[index + 1 + |block|])
    ensures !IsComment(lines[index]) ==> MaximalRun(lines, index + 1, index + 1 + |block|)
  {
    block := [];
    var cursor := index + 1;
    while cursor < |lines| && !IsBlank(lines[cursor]) && IsComment(lines[cursor])
      invariant index + 1 <= cursor <= |lines| && |block| == cursor - index - 1
      invariant block == lines[index + 1..cursor] && AllComments(block)
    {
      assert lines[index + 1..cursor + 1] == lines[index + 1..cursor] + [lines[cursor]];
      block := block + [lines[cursor]];
      cursor := cursor + 1;
    }
    if cursor < |lines| && IsBlank(lines[cursor]) {
      StripBlank(lines[cursor]);
    }
    SliceOfComments(lines, index + 1, cursor);
  }

  /** A run of comment lines (maybe none) that cannot be extended on either side. */
  ghost predicate MaximalRun(lines: seq<string>, start: nat, end: nat) {
    && start <= end <= |lines|
    && (forall i :: start <= i < end ==> IsComment(lines[i]))
    && (end < |lines| ==> !IsComment(lines[end]))
    && (start > 0 ==> !IsComment(lines[start - 1]))
  }

  /** Two maximal runs are the same or do not even touch. */
  lemma {:induction false} RunsSameOrApart(lines: seq<string>, a: nat, b: nat, c: nat, d: nat)
    requires MaximalRun(lines, a, b) && MaximalRun(lines, c, d)
    ensures (a == c && b == d) || b < c || d < a
  {
    assert c > 0 ==> !IsComment(lines[c - 1]);
    assert a > 0 ==> !IsComment(lines[a - 1]);
    assert b < |lines| ==> !IsComment(lines[b]);
    assert d < |lines| ==> !IsComment(lines[d]);
  }

  lemma {:induction false} SliceOfComments(lines: seq<string>, start: nat, end: nat)
    requires start <= end <= |lines|
    ensures AllComments(lines[start..end]) <==> forall i :: start <= i < end ==> IsComment(lines[i])
  {
    if AllComments(lines[start..end]) {
      forall i | start <= i < end ensures IsComment(lines[i]) {
        assert lines[i] == lines[start..end][i - start];
      }
    }
  }

  // ---------- merging two blocks ----------

  ghost predicate Known(main: seq<string>, line: string) {
    exists i :: 0 <= i < |main| && Strip(main[i]) == Strip(line)
  }

  /** The lines of `s` that are (or are not) known to `main`, in order. */
  ghost function Filtered(main: seq<string>, s: seq<string>, known: bool): seq<string> {
    if s == [] then []
    else Filtered(main, s[..|s| - 1], known) + (if Known(main, s[|s| - 1]) == known then [s[|s| - 1]] else [])
  }

  lemma {:induction false} FilteredAppend(main: seq<string>, a: seq<string>, b: seq<string>, known: bool)
    ensures Filtered(main, a + b, known) == Filtered(main, a, known) + Filtered(main, b, known)
    decreases |b|
  {
    if b == [] {
      assert a + b == a;
    } else {
      assert (a + b)[..|a + b| - 1] == a + b[..|b| - 1];
      FilteredAppend(main, a, b[..|b| - 1], known);
    }
  }

  lemma {:induction false} MainIsKnown(main: seq<string>, s: seq<string>)
    requires forall i :: 0 <= i < |s| ==> Known(main, s[i])
    ensures Filtered(main, s, true) == s && Filtered(main, s, false) == []
    decreases |s|
  {
    if s != [] {
      MainIsKnown(main, s[..|s| - 1]);
      assert s == s[..|s| - 1] + [s[|s| - 1]];
    }
  }

  function IndexOfStripped(s: seq<string>, key: string): (r: Option<nat>)
    ensures r.Some? ==> r.value < |s| && Strip(s[r.value]) == key && forall i :: 0 <= i < r.value ==> Strip(s[i]) != key
    ensures r.None? ==> forall i :: 0 <= i < |s| ==> Strip(s[i]) != key
  {
    if s == [] then None
    else if Strip(s[0]) == key then Some(0)
    else
      var rest := IndexOfStripped(s[1..], key);
      assert forall i :: 1 <= i < |s| ==> s[i] == s[1..][i - 1];
      if rest.Some? then Some(rest.value + 1) else None
  }

  /** The first line of `local` from `from` on that `main` knows. */
  function NextKnown(main: seq<string>, local: seq<string>, from: nat): (r: Option<nat>)
    requires from <= |local|
    ensures r.Some? ==> from <= r.value < |local| && IndexOfStripped(main, Strip(local[r.value])).Some?
    ensures r.Some? ==> forall i :: from <= i < r.value ==> IndexOfStripped(main, Strip(local[i])).None?
    ensures r.None? ==> forall i :: from <= i < |local| ==> IndexOfStripped(main, Strip(local[i])).None?
    decreases |local| - from
  {
    if from == |local| then None
    else if IndexOfStripped(main, Strip(local[from])).Some? then Some(from)
    else NextKnown(main, local, from + 1)
  }

  lemma {:induction false} KnownIsIndexed(main: seq<string>, line: string)
    ensures Known(main, line) <==> IndexOfStripped(main, Strip(line)).Some?
  {
  }

  /** Where the next extra line goes: before the next common line, or at the end. */
  function InsertionPoint(main: seq<string>, local: seq<string>, from: nat, result: seq<string>): (r: nat)
    requires from <= |local|
    ensures r <= |result|
  {
    var anchor := NextKnown(main, local, from);
    if anchor.None? then |result|
    else
      var at := IndexOfStripped(result, Strip(local[anchor.value]));
      if at.Some? then at.value else |result|
  }

  lemma {:induction false} FilteredOne(main: seq<string>, x: string, known: bool)
    ensures Filtered(main, [x], known) == if Known(main, x) == known then [x] else []
  {
    assert [x][..0] == [];
    assert Filtered(main, [x][..0], known) == [];
  }

  lemma {:induction false} FilteredAround(main: seq<string>, a: seq<string>, x: string, b: seq<string>, known: bool)
    ensures Filtered(main, a + [x] + b, known)
         == Filtered(main, a, known) + (if Known(main, x) == known then [x] else []) + Filtered(main, b, known)
  {
    FilteredAppend(main, a + [x], b, known);
    FilteredAppend(main, a, [x], known);
    FilteredOne(main, x, known);
  }

  lemma {:induction false} InsertFiltered(main: seq<string>, a: seq<string>, extra: string, b: seq<string>)
    requires !Known(main, extra)
    ensures Filtered(main, a + [extra] + b, true) == Filtered(main, a + b, true)
    ensures multiset(Filtered(main, a + [extra] + b, false)) == multiset(Filtered(main, a + b, false)) + multiset{extra}
  {
    FilteredAround(main, a, extra, b, true);
    FilteredAround(main, a, extra, b, false);
    FilteredAppend(main, a, b, true);
    FilteredAppend(main, a, b, false);
    assert Filtered(main, a, true) + [] == Filtered(main, a, true);
  }

  /** If the known lines of `result` are exactly `main`, a known line's rank among them is its place in `main`. */
  lemma {:induction false} RankInMain(main: seq<string>, result: seq<string>, p: nat)
    requires Filtered(main, result, true) == main && p < |result| && Known(main, result[p])
    ensures var rank := |Filtered(main, result[..p], true)|; rank < |main| && main[rank] == result[p]
  {
    var a, x, b := result[..p], result[p], result[p + 1..];
    assert result == a + [x] + b;
    FilteredAround(main, a, x, b, true);
  }

  lemma {:induction false} RankMonotone(main: seq<string>, result: seq<string>, p: nat, q: nat)
    requires p <= q <= |result|
    ensures |Filtered(main, result[..p], true)| <= |Filtered(main, result[..q], true)|
  {
    assert result[..q] == result[..p] + result[p..q];
    FilteredAppend(main, result[..p], result[p..q], true);
  }

  ghost predicate DistinctStripped(main: seq<string>) {
    forall i, j :: 0 <= i < j < |main| ==> Strip(main[i]) != Strip(main[j])
  }

  /** The common lines stand in `local` once each and in `main`'s order. */
  ghost predicate SameOrder(main: seq<string>, local: seq<string>) {
    forall k, l :: 0 <= k < l < |local| && Known(main, local[k]) && Known(main, local[l]) ==>
      PlaceIn(main, local[k]) < PlaceIn(main, local[l])
  }

  function PlaceIn(main: seq<string>, line: string): int {
    var at := IndexOfStripped(main, Strip(line));
    if at.Some? then at.value else -1
  }

  /** A line `main` knows is still in the result; in particular the search for it cannot fail. */
  lemma {:induction false} AnchorPresent(main: seq<string>, result: seq<string>, line: string)
    requires Filtered(main, result, true) == main && Known(main, line)
    ensures IndexOfStripped(result, Strip(line)).Some?
  {
    var i :| 0 <= i < |main| && Strip(main[i]) == Strip(line);
    FilteredWithin(main, result, true, i);
  }

  lemma {:induction false} FilteredWithin(main: seq<string>, s: seq<string>, known: bool, i: nat)
    requires i < |Filtered(main, s, known)|
    ensures Filtered(main, s, known)[i] in s
    decreases |s|
  {
    var pre := s[..|s| - 1];
    if i < |Filtered(main, pre, known)| {
      FilteredWithin(main, pre, known, i);
    }
  }

  /** Common lines keep their order in the result. */
  lemma {:induction false} OrderKept(main: seq<string>, result: seq<string>, x: string, y: string)
    requires Filtered(main, result, true) == main && DistinctStripped(main)
    requires Known(main, x) && Known(main, y) && PlaceIn(main, x) < PlaceIn(main, y)
    ensures IndexOfStripped(result, Strip(x)).Some? && IndexOfStripped(result, Strip(y)).Some?
    ensures IndexOfStripped(result, Strip(x)).value < IndexOfStripped(result, Strip(y)).value
  {
    AnchorPresent(main, result, x);
    AnchorPresent(main, result, y);
    var p, q := IndexOfStripped(result, Strip(x)).value, IndexOfStripped(result, Strip(y)).value;
    RankIsPlace(main, result, x, p);
    RankIsPlace(main, result, y, q);
    if q <= p {
      RankMonotone(main, result, q, p);
    }
  }

  lemma {:induction false} RankIsPlace(main: seq<string>, result: seq<string>, x: string, p: nat)
    requires Filtered(main, result, true) == main && DistinctStripped(main) && Known(main, x)
    requires p < |result| && Strip(result[p]) == Strip(x)
    ensures |Filtered(main, result[..p], true)| == PlaceIn(main, x)
  {
    assert Known(main, result[p]);
    RankInMain(main, result, p);
    KnownIsIndexed(main, x);
    var r, i := |Filtered(main, result[..p], true)|, PlaceIn(main, x);
    assert Strip(main[r]) == Strip(main[i]);
  }

  // ---------- subsequences up to stripping ----------

  ghost predicate SubStripped(a: seq<string>, b: seq<string>) {
    a == [] ||
    (b != [] &&
      var b' := b[..|b| - 1];
      (Strip(a[|a| - 1]) == Strip(b[|b| - 1]) && SubStripped(a[..|a| - 1], b')) || SubStripped(a, b'))
  }

  lemma {:induction false} SubSnoc(a: seq<string>, b: seq<string>, x: string, y: string)
    requires SubStripped(a, b) && Strip(x) == Strip(y)
    ensures SubStripped(a + [x], b + [y])
  {
    assert (a + [x])[..|a|] == a && (b + [y])[..|b|] == b;
  }

  lemma {:induction false} SubExtend(a: seq<string>, b: seq<string>, c: seq<string>)
    requires SubStripped(a, b)
    ensures SubStripped(a, b + c)
    decreases |c|
  {
    if c == [] {
      assert b + c == b;
    } else {
      SubExtend(a, b, c[..|c| - 1]);
      assert (b + c)[..|b + c| - 1] == b + c[..|c| - 1];
    }
  }

  // ---------- the method ----------

  /** What holds after the first `k` local lines have been placed. */
  ghost predicate Placed(main: seq<string>, local: seq<string>, k: nat, result: seq<string>)
    requires k <= |local|
  {
    && Filtered(main, result, true) == main
    && multiset(Filtered(main, result, false)) == multiset(Filtered(main, local[..k], false))
    && (DistinctStripped(main) && SameOrder(main, local) ==>
          SubStripped(local[..k], result[..InsertionPoint(main, local, k, result)]))
  }

  lemma {:induction false} NothingPlaced(main: seq<string>, local: seq<string>)
    ensures Placed(main, local, 0, main)
  {
    MainIsKnown(main, main);
    assert local[..0] == [];
  }

  /** The result holds nothing but lines of the two blocks. */
  lemma {:induction false} OnlyBlockLines(main: seq<string>, local: seq<string>, result: seq<string>)
    requires Filtered(main, result, true) == main
    requires multiset(Filtered(main, result, false)) == multiset(Filtered(main, local, false))
    ensures forall x :: x in result ==> x in main || x in local
  {
    forall x | x in result ensures x in main || x in local {
      FilteredHas(main, result, x);
      if !Known(main, x) {
        assert x in multiset(Filtered(main, local, false));
        FilteredHas(main, local, x);
      }
    }
  }

  lemma {:induction false} FilteredHas(main: seq<string>, s: seq<string>, x: string)
    ensures x in Filtered(main, s, Known(main, x)) <==> x in s
    decreases |s|
  {
    if s != [] {
      FilteredHas(main, s[..|s| - 1], x);
      assert s == s[..|s| - 1] + [s[|s| - 1]];
    }
  }

  lemma {:induction false} AllPlaced(main: seq<string>, local: seq<string>, result: seq<string>)
    requires Placed(main, local, |local|, result)
    ensures Filtered(main, result, true) == main
    ensures multiset(Filtered(main, result, false)) == multiset(Filtered(main, local, false))
    ensures DistinctStripped(main) && SameOrder(main, local) ==> SubStripped(local, result)
  {
    assert local[..|local|] == local;
    assert InsertionPoint(main, local, |local|, result) == |result|;
    assert result[..|result|] == result;
  }

  lemma {:induction false} LocalPrefix(main: seq<string>, local: seq<string>, k: nat)
    requires k < |local|
    ensures Filtered(main, local[..k + 1], false)
         == Filtered(main, local[..k], false) + (if Known(main, local[k]) then [] else [local[k]])
  {
    assert local[..k + 1][..k] == local[..k];
  }

  lemma {:induction false} PlaceKnown(main: seq<string>, local: seq<string>, k: nat, result: seq<string>)
    requires k < |local| && Placed(main, local, k, result) && IndexOfStripped(main, Strip(local[k])).Some?
    ensures Placed(main, local, k + 1, result)
  {
    KnownIsIndexed(main, local[k]);
    LocalPrefix(main, local, k);
    assert Filtered(main, local[..k], false) + [] == Filtered(main, local[..k], false);
    if DistinctStripped(main) && SameOrder(main, local) {
      KnownStep(main, local, k, result);
    }
  }

  lemma {:induction false} PlaceExtra(main: seq<string>, local: seq<string>, k: nat, result: seq<string>)
    requires k < |local| && Placed(main, local, k, result) && IndexOfStripped(main, Strip(local[k])).None?
    ensures
      var at := InsertionPoint(main, local, k + 1, result);
      Placed(main, local, k + 1, result[..at] + [local[k]] + result[at..])
  {
    KnownIsIndexed(main, local[k]);
    var at := InsertionPoint(main, local, k + 1, result);
    ExtraFiltered(main, local, k, result, at);
    ExtraStep(main, local, k, result);
  }

  lemma {:induction false} ExtraFiltered(main: seq<string>, local: seq<string>, k: nat, result: seq<string>, at: nat)
    requires k < |local| && !Known(main, local[k]) && at <= |result|
    requires multiset(Filtered(main, result, false)) == multiset(Filtered(main, local[..k], false))
    ensures
      var r := result[..at] + [local[k]] + result[at..];
      && Filtered(main, r, true) == Filtered(main, result, true)
      && multiset(Filtered(main, r, false)) == multiset(Filtered(main, local[..k + 1], false))
  {
    LocalPrefix(main, local, k);
    InsertFiltered(main, result[..at], local[k], result[at..]);
    SplitAt(result, at, |result|);
  }

  /** Finding the anchor: the next common line of `local`, and its first place in the result. */
  method InsertAt(main: seq<string>, local: seq<string>, position: nat, result: seq<string>) returns (at: nat)
    requires position < |local| && Filtered(main, result, true) == main
    ensures at == InsertionPoint(main, local, position + 1, result)
  {
    var next := NextKnown(main, local, position + 1);
    if next.None? {
      return |result|;
    }
    KnownIsIndexed(main, local[next.value]);
    AnchorPresent(main, result, local[next.value]);
    return IndexOfStripped(result, Strip(local[next.value])).value;
  }

  /** The next anchor stands behind the common line just passed. */
  lemma {:induction false} KnownGap(main: seq<string>, local: seq<string>, k: nat, result: seq<string>)
    requires k < |local| && Known(main, local[k]) && Filtered(main, result, true) == main
    requires DistinctStripped(main) && SameOrder(main, local)
    ensures
      var p := InsertionPoint(main, local, k, result);
      p < InsertionPoint(main, local, k + 1, result) && Strip(result[p]) == Strip(local[k])
  {
    KnownIsIndexed(main, local[k]);
    AnchorPresent(main, result, local[k]);
    var next := NextKnown(main, local, k + 1);
    if next.Some? {
      KnownIsIndexed(main, local[next.value]);
      OrderKept(main, result, local[k], local[next.value]);
    }
  }

  /** Passing a common line: everything before the next anchor now includes it. */
  lemma {:induction false} KnownStep(main: seq<string>, local: seq<string>, k: nat, result: seq<string>)
    requires k < |local| && Known(main, local[k]) && Filtered(main, result, true) == main
    requires DistinctStripped(main) && SameOrder(main, local)
    requires SubStripped(local[..k], result[..InsertionPoint(main, local, k, result)])
    ensures SubStripped(local[..k + 1], result[..InsertionPoint(main, local, k + 1, result)])
  {
    KnownGap(main, local, k, result);
    SubSlices(local, k, result, InsertionPoint(main, local, k, result), InsertionPoint(main, local, k + 1, result));
  }

  lemma {:induction false} SubSlices(local: seq<string>, k: nat, result: seq<string>, p: nat, q: nat)
    requires k < |local| && p < q <= |result| && Strip(result[p]) == Strip(local[k])
    requires SubStripped(local[..k], result[..p])
    ensures SubStripped(local[..k + 1], result[..q])
  {
    SubSnoc(local[..k], result[..p], local[k], result[p]);
    assert local[..k + 1] == local[..k] + [local[k]];
    assert result[..q] == result[..p] + [result[p]] + result[p + 1..q];
    SubExtend(local[..k + 1], result[..p] + [result[p]], result[p + 1..q]);
  }

  /** Inserting an extra line right before the next anchor. */
  lemma {:induction false} ExtraStep(main: seq<string>, local: seq<string>, k: nat, result: seq<string>)
    requires k < |local| && !Known(main, local[k]) && Filtered(main, result, true) == main
    ensures
      var at := InsertionPoint(main, local, k + 1, result);
      var result' := result[..at] + [local[k]] + result[at..];
      SubStripped(local[..k], result[..InsertionPoint(main, local, k, result)]) ==>
      SubStripped(local[..k + 1], result'[..InsertionPoint(main, local, k + 1, result')])
  {
    var x := local[k];
    var at := InsertionPoint(main, local, k + 1, result);
    ExtraMovesPoint(main, local, k, result);
    InsertedPrefix(result, at, x);
    NextPrefix(local, k);
    if SubStripped(local[..k], result[..at]) {
      SubSnoc(local[..k], result[..at], x, x);
    }
  }

  /** The insertion point does not depend on an extra line, and stands behind it once it is in. */
  lemma {:induction false} ExtraMovesPoint(main: seq<string>, local: seq<string>, k: nat, result: seq<string>)
    requires k < |local| && !Known(main, local[k]) && Filtered(main, result, true) == main
    ensures
      var at := InsertionPoint(main, local, k + 1, result);
      && InsertionPoint(main, local, k, result) == at
      && InsertionPoint(main, local, k + 1, result[..at] + [local[k]] + result[at..]) == at + 1
  {
    var x := local[k];
    KnownIsIndexed(main, x);
    var at := InsertionPoint(main, local, k + 1, result);
    assert NextKnown(main, local, k) == NextKnown(main, local, k + 1);
    var next := NextKnown(main, local, k + 1);
    if next.Some? {
      var y := local[next.value];
      KnownIsIndexed(main, y);
      AnchorPresent(main, result, y);
      AnchorShifts(result, at, x, Strip(y));
    }
  }

  lemma {:induction false} AnchorShifts(result: seq<string>, at: nat, x: string, key: string)
    requires IndexOfStripped(result, key) == Some(at) && Strip(x) != key
    ensures IndexOfStripped(result[..at] + [x] + result[at..], key) == Some(at + 1)
  {
    var r := result[..at] + [x] + result[at..];
    assert r[at + 1] == result[at] && r[at] == x;
    forall i | 0 <= i < at ensures Strip(r[i]) != key {
      assert r[i] == result[i];
    }
    FirstOccurrence(r, at + 1, key);
  }

  lemma {:induction false} FirstOccurrence(s: seq<string>, n: nat, key: string)
    requires n < |s| && Strip(s[n]) == key && forall i :: 0 <= i < n ==> Strip(s[i]) != key
    ensures IndexOfStripped(s, key) == Some(n)
  {
  }

  /** One turn of the loop: a common line is skipped, an extra one is inserted before its anchor. */
  method PlaceLine(main: seq<string>, local: seq<string>, position: nat, result: seq<string>)
    returns (result': seq<string>)
    requires position < |local| && Placed(main, local, position, result)
    ensures Placed(main, local, position + 1, result')
  {
    var extra := local[position];
    if IndexOfStripped(main, Strip(extra)).Some? {
      PlaceKnown(main, local, position, result);
      return result;
    }
    var at := InsertAt(main, local, position, result);
    PlaceExtra(main, local, position, result);
    return result[..at] + [extra] + result[at..];
  }

  /**
   `merge_comment_block`.  The result restricted to the lines `main` knows is exactly `main`; the other
   lines are the local extras, each as often as it occurs.  When the common lines stand in the same
   order on both sides, the result contains both blocks as subsequences.
   */
  method MergeCommentBlock(main: seq<string>, local: seq<string>) returns (result: seq<string>)
    ensures Filtered(main, result, true) == main
    ensures multiset(Filtered(main, result, false)) == multiset(Filtered(main, local, false))
    ensures DistinctStripped(main) && SameOrder(main, local) ==> SubStripped(local, result)
    ensures forall x :: x in result ==> x in main || x in local
  {
    result := main;
    NothingPlaced(main, local);
    var position := 0;
    while position < |local|
      invariant 0 <= position <= |local|
      invariant Placed(main, local, position, result)
    {
      result := PlaceLine(main, local, position, result);
      position := position + 1;
    }
    AllPlaced(main, local, result);
    OnlyBlockLines(main, local, result);
  }
}
