/** Completed-file names: always fresh, and in numeric order the order of rotation. */
module RotationOrder {
  import opened Bytes
  import opened GzipReader
  import opened Json
  import opened CaptureLog
  import opened Options

  const TRIES := 1000

  /** The first free number at or after `num`, looking at no more than `tries` candidates. */
  function FirstFree(taken: set<Name>, ts: int, num: nat, tries: nat): (r: Option<nat>)
    ensures r.Some? ==> num <= r.value < num + tries && Name(ts, r.value) !in taken
    ensures r.Some? ==> forall k :: num <= k < r.value ==> Name(ts, k) in taken
    ensures r.None? ==> forall k :: num <= k < num + tries ==> Name(ts, k) in taken
    decreases tries
  {
    if tries == 0 then None
    else if Name(ts, num) !in taken then Some(num)
    else FirstFree(taken, ts, num + 1, tries - 1)
  }

  /** The completed name for a rotation at `ts` when the state holds `last`. */
  function NextName(taken: set<Name>, ts: int, last: nat, pid: nat): Name {
    var free := FirstFree(taken, ts, last + 1, TRIES);
    if free.Some? then Name(ts, free.value) else Overflow(ts, last + 1 + TRIES, pid)
  }

  function SavedNum(d: Disk): nat {
    if d.saved.Some? then d.saved.value else 0
  }

  predicate Before(a: Name, b: Name) {
    a.ts < b.ts || (a.ts == b.ts && a.num < b.num)
  }

  /**
   A step of a run without I/O errors, with a clock that does not go back and an intact state file:
   a rotation takes the next name, and only the number of the latest rotation is ever saved.
   Crashes, at any point, are allowed as long as the state file survives them.
   */
  ghost predicate Calm(d: Disk, order: seq<Name>, e: Step) {
    match e
    case Rename(n) =>
      && n.Name? && n == NextName(d.files.Keys, n.ts, SavedNum(d), 0)
      && (order != [] ==> order[|order| - 1].ts <= n.ts)
    case Restore(_) => false
    case Crash(left) => left.saved == d.saved
    case SaveState(q) => order != [] && q == order[|order| - 1].num
    case _ => true
  }

  ghost predicate CalmRun(steps: seq<Step>) {
    steps != [] ==>
      var pre := steps[..|steps| - 1];
      && CalmRun(pre) && Exec(pre, true).Some?
      && Calm(Exec(pre, true).value.disk, Exec(pre, true).value.order, steps[|steps| - 1])
  }

  ghost predicate Ascending(order: seq<Name>) {
    && (forall i :: 0 <= i < |order| ==> order[i].Name?)
    && forall i, j :: 0 <= i < j < |order| ==> Before(order[i], order[j])
  }

  /** Numbers above the saved one, in the latest second, have no gap below them. */
  ghost predicate Gapless(d: Disk, order: seq<Name>) {
    order != [] ==>
      var ts := order[|order| - 1].ts;
      forall i, k :: 0 <= i < |order| && order[i].ts == ts && SavedNum(d) < k < order[i].num ==>
        Name(ts, k) in d.files
  }

  ghost predicate InOrder(s: State) {
    && Ascending(s.order) && Gapless(s.disk, s.order)
    && forall n :: n in s.disk.files <==> n in s.order
  }

  lemma {:induction false} RenameAscends(s: State, n: Name)
    requires InOrder(s) && Enabled(s.disk, Rename(n)) && Calm(s.disk, s.order, Rename(n))
    ensures InOrder(Apply(s, Rename(n)))
  {
    var s' := Apply(s, Rename(n));
    forall i | 0 <= i < |s.order| ensures Before(s.order[i], n) {
      var m := s.order[i];
      assert m in s.disk.files;
      var last := s.order[|s.order| - 1];
      assert m == last || Before(m, last);
    }
    assert Gapless(s'.disk, s'.order) by {
      forall i, k | 0 <= i < |s'.order| && s'.order[i].ts == n.ts && SavedNum(s'.disk) < k < s'.order[i].num
        ensures Name(n.ts, k) in s'.disk.files
      {
        assert s'.order[i] == n || Before(s'.order[i], n);
        assert Name(n.ts, k) in s.disk.files;
      }
    }
  }

  lemma {:induction false} CalmStepKeepsOrder(s: State, e: Step)
    requires InOrder(s) && Enabled(s.disk, e) && Calm(s.disk, s.order, e)
    ensures InOrder(Apply(s, e))
  {
    if e.Rename? {
      RenameAscends(s, e.n);
    } else {
      var s' := Apply(s, e);
      assert s'.order == s.order && s'.disk.files.Keys == s.disk.files.Keys;
      if e.SaveState? {
        var last := s.order[|s.order| - 1];
        forall i | 0 <= i < |s.order| && s.order[i].ts == last.ts ensures s.order[i].num <= e.num {
          assert s.order[i] == last || Before(s.order[i], last);
        }
      }
    }
  }

  /**
   Over every such run the numeric (timestamp, number) pair strictly increases from rotation to
   rotation, even when a crash comes before the state is saved.
   */
  lemma {:induction false} NamesAscend(steps: seq<Step>)
    requires CalmRun(steps) && Exec(steps, true).Some?
    ensures Ascending(Exec(steps, true).value.order) && InOrder(Exec(steps, true).value)
    decreases |steps|
  {
    if steps != [] {
      var pre := steps[..|steps| - 1];
      NamesAscend(pre);
      CalmStepKeepsOrder(Exec(pre, true).value, steps[|steps| - 1]);
    }
  }

  /** So any listing sorted by the numeric pair is the rotation order. */
  lemma {:induction false} SortedListingIsRotationOrder(order: seq<Name>, listing: seq<Name>)
    requires Ascending(order) && Ascending(listing)
    requires multiset(order) == multiset(listing)
    ensures listing == order
    decreases |order|
  {
    assert |order| == |multiset(order)| == |listing|;
    if order != [] {
      var a, b := order[0], listing[0];
      assert a in multiset(listing) && b in multiset(order);
      assert a == b || Before(a, b);
      assert b == a || Before(b, a);
      assert order == [a] + order[1..] && listing == [b] + listing[1..];
      assert multiset(order[1..]) == multiset(order) - multiset{a};
      SortedListingIsRotationOrder(order[1..], listing[1..]);
    }
  }

  /** Rotation overwrites nothing as long as one of the thousand candidates is free, and only then is the name plain. */
  lemma {:induction false} NextNameFresh(taken: set<Name>, ts: int, last: nat, pid: nat)
    ensures
      var n := NextName(taken, ts, last, pid);
      n.Name? <==> exists k :: last < k <= last + TRIES && Name(ts, k) !in taken
    ensures
      var n := NextName(taken, ts, last, pid);
      n.Name? ==> n !in taken && last < n.num
  {
    var free := FirstFree(taken, ts, last + 1, TRIES);
    if free.Some? {
      assert Name(ts, free.value) !in taken;
    }
  }

  // ---------- exactly when a rotation keeps the order ----------

  /** A plain next name follows `m` exactly when every number up to `m`'s, in `m`'s second, is taken. */
  lemma {:induction false} NextNameFollowsExact(taken: set<Name>, ts: int, last: nat, pid: nat, m: Name)
    requires NextName(taken, ts, last, pid).Name?
    ensures Before(m, NextName(taken, ts, last, pid))
       <==> m.ts < ts || (m.ts == ts && forall k :: last < k <= m.num ==> Name(ts, k) in taken)
  {
    var n := NextName(taken, ts, last, pid);
    assert Name(ts, n.num) !in taken && last < n.num;
  }

  /** One more name keeps an ascending order exactly when it follows the last one. */
  lemma {:induction false} AscendingSnoc(order: seq<Name>, n: Name)
    requires Ascending(order) && n.Name?
    ensures Ascending(order + [n]) <==> order == [] || Before(order[|order| - 1], n)
  {
    var order' := order + [n];
    if order != [] {
      var m := order[|order| - 1];
      assert order'[|order| - 1] == m && order'[|order|] == n;
      if Before(m, n) {
        forall i, j | 0 <= i < j < |order'| ensures Before(order'[i], order'[j]) {
          assert i < |order| - 1 ==> Before(order[i], m);
        }
      }
    }
  }

  /**
   From any ascending state, whatever errors came before: the next rotation under number counter `last`
   keeps the names in rotation order exactly when the clock has moved on, or has not gone back and no number
   between the counter and the latest file's is free.
   */
  lemma {:induction false} RotationKeepsOrderExact(order: seq<Name>, taken: set<Name>, ts: int, last: nat, pid: nat)
    requires Ascending(order) && NextName(taken, ts, last, pid).Name?
    ensures Ascending(order + [NextName(taken, ts, last, pid)]) <==>
      order == [] ||
      var m := order[|order| - 1];
      m.ts < ts || (m.ts == ts && forall k :: last < k <= m.num ==> Name(ts, k) in taken)
  {
    AscendingSnoc(order, NextName(taken, ts, last, pid));
    if order != [] {
      NextNameFollowsExact(taken, ts, last, pid, order[|order| - 1]);
    }
  }

  /** A completed rotation from a state in order, whose number is then saved, leaves a state in order. */
  lemma {:induction false} SavedRotationKeepsOrder(s: State, s': State, n: Name, pid: nat)
    requires InOrder(s) && n.Name? && n == NextName(s.disk.files.Keys, n.ts, SavedNum(s.disk), pid)
    requires s.order != [] ==> s.order[|s.order| - 1].ts <= n.ts
    requires s'.order == s.order + [n] && s'.disk.files.Keys == s.disk.files.Keys + {n} && SavedNum(s'.disk) == n.num
    ensures InOrder(s')
  {
    if s.order != [] {
      var m := s.order[|s.order| - 1];
      forall k | m.ts == n.ts && SavedNum(s.disk) < k <= m.num ensures Name(n.ts, k) in s.disk.files {
        assert m in s.disk.files;
        assert k < m.num ==> Name(m.ts, k) in s.disk.files;
      }
    }
    RotationKeepsOrderExact(s.order, s.disk.files.Keys, n.ts, SavedNum(s.disk), pid);
    forall i | 0 <= i < |s'.order| && s'.order[i].ts == n.ts ensures s'.order[i].num <= n.num {
      assert i < |s.order| ==> Before(s'.order[i], s'.order[|s.order|]);
    }
  }

  /** The same for a rotation that may have failed. */
  lemma {:induction false} RotationInOrder(s: State, s': State, res: Option<Name>, ts: int, pid: nat)
    ensures InOrder(s) && (s.order != [] ==> s.order[|s.order| - 1].ts <= ts) && RotatedTo(s, s', res, ts, pid) ==>
      InOrder(s')
  {
    if InOrder(s) && (s.order != [] ==> s.order[|s.order| - 1].ts <= ts) && RotatedTo(s, s', res, ts, pid) {
      SavedRotationKeepsOrder(s, s', res.value, pid);
    }
  }

  /** One more completed file, under the plain name the search found, and its number is saved. */
  ghost predicate RotatedTo(s: State, s': State, res: Option<Name>, ts: int, pid: nat) {
    && res.Some? && res.value.Name? && res.value == NextName(s.disk.files.Keys, ts, SavedNum(s.disk), pid)
    && s'.order == s.order + [res.value] && res.value in s'.disk.files
    && s'.disk.files == s.disk.files[res.value := s'.disk.files[res.value]]
    && SavedNum(s'.disk) == res.value.num
  }

  /** A state with the same files, order and saved number is in order as well. */
  lemma {:induction false} OrderFrame(s: State, s': State)
    requires InOrder(s) && s'.order == s.order && s'.disk.files.Keys == s.disk.files.Keys
    requires SavedNum(s'.disk) == SavedNum(s.disk)
    ensures InOrder(s')
  {
  }

  lemma {:induction false} StillInOrder(s: State, s': State)
    ensures InOrder(s) && SameNames(s, s') ==> InOrder(s')
  {
    if InOrder(s) && SameNames(s, s') {
      OrderFrame(s, s');
    }
  }

  ghost predicate SameNames(s: State, s': State) {
    s'.order == s.order && s'.disk.files.Keys == s.disk.files.Keys && SavedNum(s'.disk) == SavedNum(s.disk)
  }

  /** A record is written and rotated under `n`. */
  lemma {:induction false} WriteAndRotate(steps: seq<Step>, s: State, r: bytes, n: Name)
    returns (steps': seq<Step>, s': State)
    requires Exec(steps, true) == Some(s) && s.disk.active.None? && n !in s.disk.files && IsRecord(r)
    ensures Exec(steps', true) == Some(s')
    ensures s'.order == s.order + [n] && s'.disk.active.None? && s'.disk.saved == s.disk.saved
    ensures s'.disk.files == s.disk.files[n := Plain(r + [NL])]
  {
    ExecSnoc(steps, s, Create, true);
    var s1 := Apply(s, Create);
    assert Tail([]) == [];
    ExecSnoc(steps + [Create], s1, Write(r), true);
    var s2 := Apply(s1, Write(r));
    assert ActiveText(s2.disk) == r + [NL];
    LastLineClosed(r);
    ExecSnoc(steps + [Create] + [Write(r)], s2, Rename(n), true);
    steps', s' := steps + [Create] + [Write(r)] + [Rename(n)], Apply(s2, Rename(n));
  }

  /**
   With an I/O error the order can break.  Number 1 was given to a rotation that was undone, number 2 to
   the next one, a crash came before the state was saved, and the rotation after the restart took number 1.
   */
  lemma {:induction false} UndoneRotationBreaksOrder(ts: int, pid: nat, r: bytes) returns (steps: seq<Step>)
    requires IsRecord(r)
    ensures Exec(steps, true).Some?
    ensures var order := Exec(steps, true).value.order;
      order == [Name(ts, 2), Name(ts, 1)] && !Ascending(order)
    ensures NextName({}, ts, 0, pid) == Name(ts, 1) && NextName({}, ts, 1, pid) == Name(ts, 2)
    ensures NextName({Name(ts, 2)}, ts, 0, pid) == Name(ts, 1)
  {
    var one, two := Name(ts, 1), Name(ts, 2);
    var a, s := WriteAndRotate([], INIT, r, one);
    ExecSnoc(a, s, Restore(one), true);
    var back := Apply(s, Restore(one));
    LastLineClosed(r);
    ExecSnoc(a + [Restore(one)], back, Rename(two), true);
    var again := Apply(back, Rename(two));
    assert again.order == [two];
    var b, t := WriteAndRotate(a + [Restore(one)] + [Rename(two)], again, r, one);
    steps := b;
    assert t.order == [two, one];
    assert !Before(t.order[0], t.order[1]);
  }

  lemma {:induction false} LastLineClosed(r: bytes)
    requires IsRecord(r)
    ensures Tail(r + [NL]) == []
  {
    RecordShape(r);
    AppendLine([], r);
    assert [] + r + [NL] == r + [NL];
  }
}
