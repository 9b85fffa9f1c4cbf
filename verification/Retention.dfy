/** The retention sweep over the capture directory. */
module Retention {
  import opened Sequences

  /** What the sweep distinguishes by name; a sidecar's id is that of its data file. */
  datatype Path =
    Active | LegacyActive | StateFile | Data(id: nat) | SidecarOf(id: nat) | Temp(id: nat) | Other(id: nat)

  datatype Meta = Meta(mtime: int, size: nat)

  /** A data file with the sidecar that was there, or a sidecar whose data file is gone. */
  datatype Unit = Pair(id: nat, hasSidecar: bool, mtime: int, size: nat) | Orphan(id: nat, mtime: int, size: nat)

  function PathsOf(u: Unit): set<Path> {
    match u
    case Pair(id, both, _, _) => if both then {Data(id), SidecarOf(id)} else {Data(id)}
    case Orphan(id, _, _) => {SidecarOf(id)}
  }

  function UnionPaths(us: seq<Unit>): set<Path> {
    if us == [] then {} else UnionPaths(us[..|us| - 1]) + PathsOf(us[|us| - 1])
  }

  lemma {:induction false} UnionMember(us: seq<Unit>, p: Path)
    ensures p in UnionPaths(us) <==> exists i :: 0 <= i < |us| && p in PathsOf(us[i])
    decreases |us|
  {
    if us != [] {
      var pre := us[..|us| - 1];
      UnionMember(pre, p);
      assert forall i :: 0 <= i < |pre| ==> pre[i] == us[i];
    }
  }

  function Total(us: seq<Unit>): nat {
    if us == [] then 0 else us[0].size + Total(us[1..])
  }

  /** Removable at all: data files and sidecars, never the active, legacy-active or state file. */
  predicate Removable(p: Path) {
    p.Data? || p.SidecarOf?
  }

  ghost predicate Distinct(us: seq<Unit>) {
    forall i, j :: 0 <= i < j < |us| ==> us[i].id != us[j].id
  }

  ghost predicate OldestFirst(us: seq<Unit>) {
    forall i, j :: 0 <= i < j < |us| ==> us[i].mtime <= us[j].mtime
  }

  /** The unit says what the directory holds for its id. */
  ghost predicate Describes(u: Unit, dir: map<Path, Meta>) {
    match u
    case Pair(id, both, mtime, size) =>
      && Data(id) in dir && (both <==> SidecarOf(id) in dir) && mtime == dir[Data(id)].mtime
      && size == dir[Data(id)].size + (if both then dir[SidecarOf(id)].size else 0)
    case Orphan(id, mtime, size) =>
      Data(id) !in dir && SidecarOf(id) in dir && dir[SidecarOf(id)] == Meta(mtime, size)
  }

  /** One unit for each data file and each orphaned sidecar. */
  ghost predicate Inventory(us: seq<Unit>, dir: map<Path, Meta>) {
    && Distinct(us)
    && (forall u :: u in us ==> Describes(u, dir))
    && forall p :: p in dir && Removable(p) ==> exists u :: u in us && u.id == p.id
  }

  lemma {:induction false} InventoryCovers(us: seq<Unit>, dir: map<Path, Meta>)
    requires Inventory(us, dir)
    ensures UnionPaths(us) == set p | p in dir && Removable(p)
  {
    forall p ensures p in UnionPaths(us) <==> p in dir && Removable(p) {
      UnionMember(us, p);
      if p in UnionPaths(us) {
        var i :| 0 <= i < |us| && p in PathsOf(us[i]);
        assert Describes(us[i], dir);
      }
      if p in dir && Removable(p) {
        var u :| u in us && u.id == p.id;
        var i :| 0 <= i < |us| && us[i] == u;
        assert Describes(u, dir);
        assert p in PathsOf(us[i]);
      }
    }
  }

  lemma {:induction false} DisjointPaths(us: seq<Unit>, i: nat, j: nat)
    requires Distinct(us) && i < |us| && j < |us| && i != j
    ensures PathsOf(us[i]) !! PathsOf(us[j])
  {
  }

  // ---------- the sort ----------

  function Insert(u: Unit, s: seq<Unit>): (r: seq<Unit>)
    ensures |r| == |s| + 1
    ensures forall x :: x in r <==> x == u || x in s
  {
    if s == [] then [u]
    else if u.mtime < s[0].mtime then [u] + s
    else
      assert s == [s[0]] + s[1..];
      [s[0]] + Insert(u, s[1..])
  }

  lemma {:induction false} InsertKeepsOrder(u: Unit, s: seq<Unit>)
    requires OldestFirst(s)
    ensures OldestFirst(Insert(u, s))
    decreases |s|
  {
    if s != [] && s[0].mtime <= u.mtime {
      InsertKeepsOrder(u, s[1..]);
      var r := Insert(u, s[1..]);
      forall i | 0 <= i < |r| ensures s[0].mtime <= r[i].mtime {
        assert r[i] in r;
      }
    }
  }

  lemma {:induction false} InsertKeepsDistinct(u: Unit, s: seq<Unit>)
    requires Distinct(s) && forall x :: x in s ==> x.id != u.id
    ensures Distinct(Insert(u, s))
    decreases |s|
  {
    if s != [] && s[0].mtime <= u.mtime {
      InsertKeepsDistinct(u, s[1..]);
      var r := Insert(u, s[1..]);
      forall i | 0 <= i < |r| ensures s[0].id != r[i].id {
        assert r[i] in r;
      }
    }
  }

  /** `list.sort(key=mtime)`, by insertion. */
  function SortUnits(us: seq<Unit>): (r: seq<Unit>)
    ensures |r| == |us|
    ensures forall x :: x in r <==> x in us
  {
    if us == [] then []
    else
      var n := |us| - 1;
      assert us == us[..n] + [us[n]];
      Insert(us[n], SortUnits(us[..n]))
  }

  lemma {:induction false} SortSorts(us: seq<Unit>)
    requires Distinct(us)
    ensures OldestFirst(SortUnits(us)) && Distinct(SortUnits(us))
    decreases |us|
  {
    if us != [] {
      var n := |us| - 1;
      SortSorts(us[..n]);
      InsertKeepsOrder(us[n], SortUnits(us[..n]));
      InsertKeepsDistinct(us[n], SortUnits(us[..n]));
    }
  }

  lemma {:induction false} SortKeepsInventory(us: seq<Unit>, dir: map<Path, Meta>)
    requires Inventory(us, dir)
    ensures Inventory(SortUnits(us), dir) && OldestFirst(SortUnits(us))
  {
    SortSorts(us);
  }

  // ---------- the sweep ----------

  /** One correct pair for each data file in `part`. */
  ghost predicate Paired(units: seq<Unit>, dir: map<Path, Meta>, part: seq<Path>) {
    && Distinct(units)
    && (forall u :: u in units ==> u.Pair? && Describes(u, dir) && Data(u.id) in part)
    && (forall k :: Data(k) in part ==> exists u :: u in units && u.id == k)
  }

  lemma {:induction false} PairAdded(units: seq<Unit>, dir: map<Path, Meta>, part: seq<Path>, u: Unit)
    requires Paired(units, dir, part) && u.Pair? && Describes(u, dir) && Data(u.id) !in part
    ensures Paired(units + [u], dir, part + [Data(u.id)])
  {
    assert forall v :: v in units + [u] <==> v in units || v == u;
    forall k | Data(k) in part + [Data(u.id)] ensures exists v :: v in units + [u] && v.id == k {
      if k != u.id {
        var v :| v in units && v.id == k;
        assert v in units + [u];
      }
    }
  }

  /** One correct unit for each data file, and for each orphaned sidecar in `part`. */
  ghost predicate Covering(units: seq<Unit>, dir: map<Path, Meta>, part: seq<Path>) {
    && Distinct(units)
    && (forall u :: u in units ==> Describes(u, dir) && (u.Orphan? ==> SidecarOf(u.id) in part))
    && (forall k :: Data(k) in dir ==> exists u :: u in units && u.id == k)
    && (forall k :: SidecarOf(k) in part ==> exists u :: u in units && u.id == k)
  }

  lemma {:induction false} OrphanAdded(units: seq<Unit>, dir: map<Path, Meta>, part: seq<Path>, u: Unit)
    requires Covering(units, dir, part) && u.Orphan? && Describes(u, dir) && SidecarOf(u.id) !in part
    ensures Covering(units + [u], dir, part + [SidecarOf(u.id)])
  {
    assert forall v :: v in units + [u] <==> v in units || v == u;
    forall k | Data(k) in dir || SidecarOf(k) in part + [SidecarOf(u.id)]
      ensures exists v :: v in units + [u] && v.id == k {
      if k != u.id {
        var v :| v in units && v.id == k;
        assert v in units + [u];
      }
    }
  }

  /** A path that needs no unit of its own: the first pass has seen to it. */
  lemma {:induction false} NoneAdded(units: seq<Unit>, dir: map<Path, Meta>, part: seq<Path>, p: Path)
    requires Covering(units, dir, part) && (p.SidecarOf? ==> Data(p.id) in dir)
    ensures Covering(units, dir, part + [p])
  {
  }

  lemma {:induction false} CoveringAll(units: seq<Unit>, dir: map<Path, Meta>, listing: seq<Path>)
    requires Covering(units, dir, listing) && forall p :: p in dir <==> p in listing
    ensures Inventory(units, dir)
  {
  }

  /** The paths of a unit in the order they are unlinked. */
  function ListOf(u: Unit): seq<Path> {
    match u
    case Pair(id, both, _, _) => if both then [Data(id), SidecarOf(id)] else [Data(id)]
    case Orphan(id, _, _) => [SidecarOf(id)]
  }

  /** The directory after each of `paths` was unlinked, unless it is stuck. */
  function Without(dir: map<Path, Meta>, paths: seq<Path>, stuck: set<Path>): map<Path, Meta> {
    if paths == [] then dir
    else
      var d := Without(dir, paths[..|paths| - 1], stuck);
      if paths[|paths| - 1] in stuck then d else d - {paths[|paths| - 1]}
  }

  /** How many of the unit's paths can be unlinked. */
  function Freed(u: Unit, stuck: set<Path>): nat {
    Unstuck(ListOf(u), stuck)
  }

  function Unstuck(paths: seq<Path>, stuck: set<Path>): nat {
    if paths == [] then 0
    else Unstuck(paths[..|paths| - 1], stuck) + (if paths[|paths| - 1] in stuck then 0 else 1)
  }

  /** Taking one set of paths away, then another, all but the stuck ones. */
  lemma {:induction false} TakeBoth(dir: map<Path, Meta>, a: set<Path>, b: set<Path>, stuck: set<Path>)
    ensures dir - (a - stuck) - (b - stuck) == dir - ((a + b) - stuck)
  {
    assert (a + b) - stuck == (a - stuck) + (b - stuck);
  }

  lemma {:induction false} OneUnlinked(dir: map<Path, Meta>, p: Path, stuck: set<Path>)
    ensures Without(dir, [p], stuck) == dir - ({p} - stuck)
  {
    assert [p][..0] == [];
    assert {p} - stuck == if p in stuck then {} else {p};
    assert Without(dir, [p][..0], stuck) == dir;
  }

  lemma {:induction false} TwoUnlinked(dir: map<Path, Meta>, p: Path, q: Path, stuck: set<Path>)
    requires p != q
    ensures Without(dir, [p, q], stuck) == dir - ({p, q} - stuck)
  {
    assert [p, q][..1] == [p];
    OneUnlinked(dir, p, stuck);
    TakeBoth(dir, {p}, {q}, stuck);
    assert {p} + {q} == {p, q};
    assert {q} - stuck == if q in stuck then {} else {q};
  }

  lemma {:induction false} AllUnlinked(u: Unit, dir: map<Path, Meta>, stuck: set<Path>)
    ensures Without(dir, ListOf(u), stuck) == dir - (PathsOf(u) - stuck)
  {
    match u
    case Pair(id, both, _, _) =>
      if both {
        TwoUnlinked(dir, Data(id), SidecarOf(id), stuck);
      } else {
        OneUnlinked(dir, Data(id), stuck);
      }
    case Orphan(id, _, _) => OneUnlinked(dir, SidecarOf(id), stuck);
  }

  /** The directory after the first `n` units were removed. */
  ghost function SweptDir(us: seq<Unit>, n: nat, stuck: set<Path>, before: map<Path, Meta>): map<Path, Meta>
    requires n <= |us|
  {
    if n == 0 then before else SweptDir(us, n - 1, stuck, before) - (PathsOf(us[n - 1]) - stuck)
  }

  ghost function SweptCount(us: seq<Unit>, n: nat, stuck: set<Path>): nat
    requires n <= |us|
  {
    if n == 0 then 0 else SweptCount(us, n - 1, stuck) + Freed(us[n - 1], stuck)
  }

  class RetentionSweep {
    const retentionDays: int
    const maxCaptureBytes: int
    /** The paths whose unlink fails. */
    const stuck: set<Path>
    var dir: map<Path, Meta>
    var filesRetired: nat

    constructor (retentionDays: int, maxCaptureBytes: int, stuck: set<Path>, dir: map<Path, Meta>)
      ensures this.dir == dir && filesRetired == 0
      ensures this.retentionDays == retentionDays && this.maxCaptureBytes == maxCaptureBytes && this.stuck == stuck
    {
      this.retentionDays, this.maxCaptureBytes, this.stuck := retentionDays, maxCaptureBytes, stuck;
      this.dir, filesRetired := dir, 0;
    }

    /** First pass: every data file, with the sidecar found next to it. */
    method CollectPairs(listing: seq<Path>) returns (units: seq<Unit>, seen: set<nat>, totalSize: nat)
      requires forall p :: p in dir <==> p in listing
      requires forall i, j :: 0 <= i < j < |listing| ==> listing[i] != listing[j]
      ensures totalSize == Total(units) && Distinct(units)
      ensures forall u :: u in units ==> u.Pair? && Describes(u, dir)
      ensures forall k :: Data(k) in dir ==> exists u :: u in units && u.id == k
      ensures forall k :: k in seen <==> SidecarOf(k) in dir && Data(k) in dir
    {
      units, seen, totalSize := [], {}, 0;
      var i := 0;
      while i < |listing|
        invariant 0 <= i <= |listing|
        invariant totalSize == Total(units) && Paired(units, dir, listing[..i])
        invariant forall k :: k in seen <==> SidecarOf(k) in dir && Data(k) in listing[..i]
      {
        var p := listing[i];
        NextPrefix(listing, i);
        assert p !in listing[..i];
        if p.Data? {
          var both := SidecarOf(p.id) in dir;
          var u := Pair(p.id, both, dir[p].mtime, dir[p].size + (if both then dir[SidecarOf(p.id)].size else 0));
          TotalSnoc(units, u);
          PairAdded(units, dir, listing[..i], u);
          units, totalSize := units + [u], totalSize + u.size;
          if both {
            seen := seen + {p.id};
          }
        }
        i := i + 1;
      }
      assert listing[..i] == listing;
    }

    /** Second pass: sidecars no pair has claimed. */
    method CollectUnits(first: seq<Path>, second: seq<Path>) returns (units: seq<Unit>, totalSize: nat)
      requires forall p :: p in dir <==> p in first
      requires forall p :: p in dir <==> p in second
      requires forall i, j :: 0 <= i < j < |first| ==> first[i] != first[j]
      requires forall i, j :: 0 <= i < j < |second| ==> second[i] != second[j]
      ensures Inventory(units, dir) && totalSize == Total(units)
    {
      var seen;
      units, seen, totalSize := CollectPairs(first);
      var j := 0;
      while j < |second|
        invariant 0 <= j <= |second|
        invariant totalSize == Total(units) && Covering(units, dir, second[..j])
      {
        var p := second[j];
        NextPrefix(second, j);
        j := j + 1;
        if p.SidecarOf? && p.id !in seen {
          var u := Orphan(p.id, dir[p].mtime, dir[p].size);
          TotalSnoc(units, u);
          OrphanAdded(units, dir, second[..j - 1], u);
          units, totalSize := units + [u], totalSize + u.size;
        } else {
          NoneAdded(units, dir, second[..j - 1], p);
        }
      }
      assert second[..j] == second;
      CoveringAll(units, dir, second);
    }

    /** Unlink a unit's paths; a failed unlink is skipped, and its path stays. */
    method Remove(u: Unit)
      requires PathsOf(u) <= dir.Keys
      modifies this
      ensures dir == old(dir) - (PathsOf(u) - stuck)
      ensures filesRetired == old(filesRetired) + Freed(u, stuck)
    {
      var paths := ListOf(u);
      for i := 0 to |paths|
        invariant dir == Without(old(dir), paths[..i], stuck)
        invariant filesRetired == old(filesRetired) + Unstuck(paths[..i], stuck)
      {
        NextPrefix(paths, i);
        if paths[i] !in stuck {
          dir := dir - {paths[i]};
          filesRetired := filesRetired + 1;
        }
      }
      assert paths[..|paths|] == paths;
      AllUnlinked(u, old(dir), stuck);
    }

    /**
     The first `gone` units of `us` are removed, except the paths whose unlink fails, and each path gone is
     counted.
     */
    ghost predicate Swept(us: seq<Unit>, gone: nat, before: map<Path, Meta>, retired: nat)
      requires gone <= |us|
      reads this
    {
      dir == SweptDir(us, gone, stuck, before) && filesRetired == retired + SweptCount(us, gone, stuck)
    }

    method RemoveNext(us: seq<Unit>, gone: nat, ghost before: map<Path, Meta>, ghost retired: nat)
      requires Inventory(us, before) && gone < |us| && Swept(us, gone, before, retired)
      modifies this
      ensures Swept(us, gone + 1, before, retired)
    {
      StillThere(us, gone, stuck, before);
      Remove(us[gone]);
    }

    /** The age phase: units older than the cutoff go, which in mtime order is a prefix. */
    method ExpireOld(us: seq<Unit>, cutoff: int, total: int, ghost before: map<Path, Meta>, ghost retired: nat)
      returns (survivors: seq<Unit>, gone: nat, totalSize: int)
      requires Inventory(us, before) && OldestFirst(us) && total == Total(us)
      requires dir == before && filesRetired == retired
      modifies this
      ensures gone <= |us| && survivors == us[gone..] && totalSize == Total(survivors)
      ensures forall j :: 0 <= j < gone ==> us[j].mtime < cutoff
      ensures gone < |us| ==> cutoff <= us[gone].mtime
      ensures Swept(us, gone, before, retired)
    {
      survivors, gone, totalSize := [], 0, total;
      var i := 0;
      assert us[0..] == us;
      ghost var swept := Swept(us, gone, before, retired);
      while i < |us|
        invariant 0 <= gone <= i <= |us| && survivors == us[gone..i]
        invariant forall j :: 0 <= j < gone ==> us[j].mtime < cutoff
        invariant gone < i ==> cutoff <= us[gone].mtime
        invariant totalSize == Total(survivors) + Total(us[i..])
        invariant swept && (swept <==> Swept(us, gone, before, retired))
      {
        var u := us[i];
        NextByAge(us, gone, i, cutoff);
        if u.mtime < cutoff {
          RemoveNext(us, gone, before, retired);
          gone := gone + 1;
          swept := Swept(us, gone, before, retired);
          totalSize := totalSize - u.size;
        } else {
          TotalSnoc(survivors, u);
          survivors := survivors + [u];
        }
        i := i + 1;
      }
    }

    /** The quota phase: pop the oldest while the running total is over budget. */
    method TrimToQuota(us: seq<Unit>, start: nat, total: int, ghost before: map<Path, Meta>, ghost retired: nat)
      returns (gone: nat, totalSize: int)
      requires Inventory(us, before) && start <= |us| && Swept(us, start, before, retired)
      requires total == Total(us[start..]) && maxCaptureBytes >= 0
      modifies this
      ensures start <= gone <= |us| && totalSize == Total(us[gone..])
      ensures totalSize <= maxCaptureBytes || gone == |us|
      ensures gone > start ==> maxCaptureBytes < Total(us[gone - 1..])
      ensures Swept(us, gone, before, retired)
    {
      var units := us[start..];
      gone, totalSize := start, total;
      ghost var swept := Swept(us, gone, before, retired);
      while totalSize > maxCaptureBytes && units != []
        invariant start <= gone <= |us| && units == us[gone..] && totalSize == Total(units)
        invariant gone > start ==> maxCaptureBytes < Total(us[gone - 1..])
        invariant swept && (swept <==> Swept(us, gone, before, retired))
        decreases |units|
      {
        var u := units[0];
        NextOldest(us, gone);
        units := units[1..];
        RemoveNext(us, gone, before, retired);
        gone := gone + 1;
        swept := Swept(us, gone, before, retired);
        totalSize := totalSize - u.size;
      }
    }

    /** What is left is young and within quota, or nothing; and no young unit went without need. */
    ghost predicate Settled(us: seq<Unit>, gone: nat, totalSize: int, cutoff: int)
      requires gone <= |us|
    {
      && (forall i :: gone <= i < |us| ==> us[i].mtime >= cutoff)
      && totalSize == Total(us[gone..])
      && (maxCaptureBytes < 0 || totalSize <= maxCaptureBytes || gone == |us|)
      && (gone > 0 && us[gone - 1].mtime >= cutoff ==> 0 <= maxCaptureBytes < Total(us[gone - 1..]))
    }

    /** Both phases on the sorted inventory. */
    method ExpireThenTrim(us: seq<Unit>, cutoff: int, total: int, ghost before: map<Path, Meta>, ghost retired: nat)
      returns (gone: nat, totalSize: int)
      requires Inventory(us, before) && OldestFirst(us) && total == Total(us)
      requires dir == before && filesRetired == retired
      modifies this
      ensures gone <= |us| && Swept(us, gone, before, retired) && Settled(us, gone, totalSize, cutoff)
    {
      var survivors;
      survivors, gone, totalSize := ExpireOld(us, cutoff, total, before, retired);
      if maxCaptureBytes >= 0 {
        gone, totalSize := TrimToQuota(us, gone, totalSize, before, retired);
      }
      YoungRest(us, gone, cutoff);
    }

    /**
     The sweep.  `us` is the inventory, oldest first; its first `gone` units are removed.  The survivors
     are the rest: none older than the cutoff, within quota or empty, and no unit that is young enough
     was removed without need.  A path that survives outside them is one whose unlink fails.
     */
    method EnforceRetention(first: seq<Path>, second: seq<Path>, now: int)
      returns (us: seq<Unit>, gone: nat, totalSize: int)
      requires forall p :: p in dir <==> p in first
      requires forall p :: p in dir <==> p in second
      requires forall i, j :: 0 <= i < j < |first| ==> first[i] != first[j]
      requires forall i, j :: 0 <= i < j < |second| ==> second[i] != second[j]
      modifies this
      ensures retentionDays < 0 ==> dir == old(dir) && filesRetired == old(filesRetired)
      ensures retentionDays >= 0 ==> Inventory(us, old(dir)) && OldestFirst(us)
      ensures gone <= |us| && dir == old(dir) - (UnionPaths(us[..gone]) - stuck)
      ensures filesRetired == old(filesRetired) + SweptCount(us, gone, stuck)
      ensures retentionDays >= 0 ==> Settled(us, gone, totalSize, now - retentionDays * 86400)
    {
      us, gone, totalSize := [], 0, 0;
      if retentionDays < 0 {
        return;
      }
      var cutoff := now - retentionDays * 86400;
      var units;
      units, totalSize := CollectUnits(first, second);
      SortKeepsInventory(units, dir);
      SortKeepsTotal(units);
      us := SortUnits(units);
      gone, totalSize := ExpireThenTrim(us, cutoff, totalSize, old(dir), old(filesRetired));
      SweptSoFar(us, gone, stuck, old(dir));
    }
  }

  /** Behind the first young unit there are only young ones. */
  lemma {:induction false} NextByAge(us: seq<Unit>, gone: nat, i: nat, cutoff: int)
    requires OldestFirst(us) && gone <= i < |us| && (gone < i ==> cutoff <= us[gone].mtime)
    ensures us[i].mtime < cutoff ==> gone == i && us[gone..i] == [] == us[gone + 1..i + 1]
    ensures us[gone..i] + [us[i]] == us[gone..i + 1]
    ensures Total(us[i..]) == us[i].size + Total(us[i + 1..])
  {
    assert us[i..][1..] == us[i + 1..];
  }

  lemma {:induction false} NextOldest(us: seq<Unit>, gone: nat)
    requires gone < |us|
    ensures us[gone..][0] == us[gone] && us[gone..][1..] == us[gone + 1..]
    ensures Total(us[gone..]) == us[gone].size + Total(us[gone + 1..])
  {
  }

  lemma {:induction false} YoungRest(us: seq<Unit>, gone: nat, cutoff: int)
    requires OldestFirst(us) && (gone < |us| ==> us[gone].mtime >= cutoff)
    ensures forall i :: gone <= i < |us| ==> us[i].mtime >= cutoff
  {
  }

  /** The next unit's paths are all still there, and removing them adds exactly them to the removed set. */
  lemma {:induction false} NextUnit(us: seq<Unit>, gone: nat, before: map<Path, Meta>)
    requires Inventory(us, before) && gone < |us|
    ensures PathsOf(us[gone]) <= before.Keys - UnionPaths(us[..gone])
    ensures UnionPaths(us[..gone + 1]) == UnionPaths(us[..gone]) + PathsOf(us[gone])
  {
    var u := us[gone];
    assert u in us && Describes(u, before);
    forall p | p in PathsOf(u) ensures p !in UnionPaths(us[..gone]) && p in before {
      UnionMember(us[..gone], p);
      forall i | 0 <= i < gone ensures p !in PathsOf(us[..gone][i]) {
        DisjointPaths(us, i, gone);
      }
    }
    assert us[..gone + 1][..gone] == us[..gone];
  }

  lemma {:induction false} NextPaths(us: seq<Unit>, n: nat)
    requires n < |us|
    ensures UnionPaths(us[..n + 1]) == UnionPaths(us[..n]) + PathsOf(us[n])
  {
    assert us[..n + 1][..n] == us[..n];
  }

  /**
   Every path not yet reached is still there; what is gone is what the units before it had, but for the stuck
   ones.
   */
  lemma {:induction false} SweptSoFar(us: seq<Unit>, gone: nat, stuck: set<Path>, before: map<Path, Meta>)
    requires Inventory(us, before) && gone <= |us|
    ensures SweptDir(us, gone, stuck, before) == before - (UnionPaths(us[..gone]) - stuck)
    decreases gone
  {
    if gone == 0 {
      assert us[..0] == [];
    } else {
      SweptSoFar(us, gone - 1, stuck, before);
      NextPaths(us, gone - 1);
      TakeBoth(before, UnionPaths(us[..gone - 1]), PathsOf(us[gone - 1]), stuck);
    }
  }

  lemma {:induction false} StillThere(us: seq<Unit>, gone: nat, stuck: set<Path>, before: map<Path, Meta>)
    requires Inventory(us, before) && gone < |us|
    ensures PathsOf(us[gone]) <= SweptDir(us, gone, stuck, before).Keys
  {
    SweptSoFar(us, gone, stuck, before);
    NextUnit(us, gone, before);
  }

  // ---------- what the sweep means for the directory ----------

  /** The bytes of the files under `paths`. */
  ghost function Bytes(paths: set<Path>, dir: map<Path, Meta>): nat
    requires paths <= dir.Keys
  {
    if paths == {} then 0
    else
      var p :| p in paths;
      dir[p].size + Bytes(paths - {p}, dir)
  }

  /** It does not matter which path is counted first. */
  lemma {:induction false} BytesWithout(paths: set<Path>, dir: map<Path, Meta>, p: Path)
    requires paths <= dir.Keys && p in paths
    ensures Bytes(paths, dir) == dir[p].size + Bytes(paths - {p}, dir)
    decreases |paths|
  {
    var q :| q in paths && Bytes(paths, dir) == dir[q].size + Bytes(paths - {q}, dir);
    if q != p {
      BytesWithout(paths - {q}, dir, p);
      BytesWithout(paths - {p}, dir, q);
      assert paths - {q} - {p} == paths - {p} - {q};
    }
  }

  lemma {:induction false} BytesOfUnion(a: set<Path>, b: set<Path>, dir: map<Path, Meta>)
    requires a + b <= dir.Keys && a !! b
    ensures Bytes(a + b, dir) == Bytes(a, dir) + Bytes(b, dir)
    decreases |a|
  {
    if a == {} {
      assert a + b == b;
    } else {
      var p :| p in a;
      BytesWithout(a, dir, p);
      BytesWithout(a + b, dir, p);
      assert a + b - {p} == (a - {p}) + b;
      BytesOfUnion(a - {p}, b, dir);
    }
  }

  lemma {:induction false} UnitBytes(u: Unit, dir: map<Path, Meta>)
    requires Describes(u, dir)
    ensures PathsOf(u) <= dir.Keys && Bytes(PathsOf(u), dir) == u.size
  {
    var p := if u.Pair? then Data(u.id) else SidecarOf(u.id);
    BytesWithout(PathsOf(u), dir, p);
    if u.Pair? && u.hasSidecar {
      assert PathsOf(u) - {p} == {SidecarOf(u.id)};
      BytesWithout(PathsOf(u) - {p}, dir, SidecarOf(u.id));
      assert PathsOf(u) - {p} - {SidecarOf(u.id)} == {};
    } else {
      assert PathsOf(u) - {p} == {};
    }
  }

  lemma {:induction false} NewPaths(us: seq<Unit>, n: nat)
    requires Distinct(us) && n < |us|
    ensures UnionPaths(us[..n]) !! PathsOf(us[n])
  {
    forall p | p in PathsOf(us[n]) ensures p !in UnionPaths(us[..n]) {
      UnionMember(us[..n], p);
      forall i | 0 <= i < n ensures p !in PathsOf(us[..n][i]) {
        DisjointPaths(us, i, n);
      }
    }
  }

  /** The running total is what the units' files take up on disk. */
  lemma {:induction false} TotalIsBytes(us: seq<Unit>, dir: map<Path, Meta>)
    requires Distinct(us) && forall u :: u in us ==> Describes(u, dir)
    ensures UnionPaths(us) <= dir.Keys && Bytes(UnionPaths(us), dir) == Total(us)
    decreases |us|
  {
    if us != [] {
      var n := |us| - 1;
      var pre, u := us[..n], us[n];
      assert us == pre + [u] && u in us;
      assert forall v :: v in pre ==> v in us;
      TotalIsBytes(pre, dir);
      UnitBytes(u, dir);
      TotalSnoc(pre, u);
      NewPaths(us, n);
      BytesOfUnion(UnionPaths(pre), PathsOf(u), dir);
    }
  }

  /** With no failed unlink: protected paths stay, and a paired sidecar survives exactly when its data file does. */
  lemma {:induction false} CleanSweep(us: seq<Unit>, gone: nat, before: map<Path, Meta>, after: map<Path, Meta>)
    requires Inventory(us, before) && gone <= |us| && after == before - UnionPaths(us[..gone])
    ensures forall p :: p in before && !Removable(p) ==> p in after && after[p] == before[p]
    ensures forall k :: Data(k) in before && SidecarOf(k) in before ==> (Data(k) in after <==> SidecarOf(k) in after)
    ensures forall p :: p in after && Removable(p) <==> p in UnionPaths(us[gone..])
  {
    InventoryCovers(us, before);
    forall p | p in UnionPaths(us[..gone]) ensures Removable(p) {
      UnionMember(us[..gone], p);
      var i :| 0 <= i < gone && p in PathsOf(us[..gone][i]);
    }
    forall k | Data(k) in before && SidecarOf(k) in before
      ensures Data(k) in UnionPaths(us[..gone]) <==> SidecarOf(k) in UnionPaths(us[..gone])
    {
      UnionMember(us[..gone], Data(k));
      UnionMember(us[..gone], SidecarOf(k));
      forall i | 0 <= i < gone ensures Data(k) in PathsOf(us[..gone][i]) <==> SidecarOf(k) in PathsOf(us[..gone][i]) {
        assert Describes(us[i], before);
      }
    }
    forall p ensures p in after && Removable(p) <==> p in UnionPaths(us[gone..]) {
      SplitUnion(us, gone, p);
    }
  }

  /** Each removable path belongs to exactly one side of a cut through the inventory. */
  lemma {:induction false} SplitUnion(us: seq<Unit>, k: nat, p: Path)
    requires Distinct(us) && k <= |us|
    ensures p in UnionPaths(us) <==> p in UnionPaths(us[..k]) || p in UnionPaths(us[k..])
    ensures !(p in UnionPaths(us[..k]) && p in UnionPaths(us[k..]))
  {
    UnionMember(us, p);
    UnionMember(us[..k], p);
    UnionMember(us[k..], p);
    InSlices(us, k, p);
    if p in UnionPaths(us[..k]) && p in UnionPaths(us[k..]) {
      var i :| 0 <= i < k && p in PathsOf(us[i]);
      var j :| k <= j < |us| && p in PathsOf(us[j]);
      DisjointPaths(us, i, j);
      assert false;
    }
  }

  lemma {:induction false} InSlices(us: seq<Unit>, k: nat, p: Path)
    requires k <= |us|
    ensures (exists i :: 0 <= i < k && p in PathsOf(us[..k][i])) <==> exists i :: 0 <= i < k && p in PathsOf(us[i])
    ensures (exists j :: 0 <= j < |us| - k && p in PathsOf(us[k..][j])) <==>
      exists j :: k <= j < |us| && p in PathsOf(us[j])
  {
    if i :| 0 <= i < k && p in PathsOf(us[i]) {
      assert us[..k][i] == us[i];
    }
    if j :| k <= j < |us| && p in PathsOf(us[j]) {
      assert us[k..][j - k] == us[j];
    }
  }

  lemma {:induction false} InsertTotal(u: Unit, s: seq<Unit>)
    ensures Total(Insert(u, s)) == Total(s) + u.size
    decreases |s|
  {
    if s != [] && s[0].mtime <= u.mtime {
      InsertTotal(u, s[1..]);
    } else {
      assert Insert(u, s)[1..] == s;
    }
  }

  lemma {:induction false} SortKeepsTotal(us: seq<Unit>)
    ensures Total(SortUnits(us)) == Total(us)
    decreases |us|
  {
    if us != [] {
      var n := |us| - 1;
      SortKeepsTotal(us[..n]);
      InsertTotal(us[n], SortUnits(us[..n]));
      TotalSnoc(us[..n], us[n]);
      assert us == us[..n] + [us[n]];
    }
  }

  lemma {:induction false} TotalSnoc(us: seq<Unit>, u: Unit)
    ensures Total(us + [u]) == Total(us) + u.size
    decreases |us|
  {
    if us == [] {
      assert us + [u] == [u];
      assert [u][1..] == [];
    } else {
      assert (us + [u])[1..] == us[1..] + [u];
      TotalSnoc(us[1..], u);
    }
  }

  lemma {:induction false} RestDescribed(us: seq<Unit>, gone: nat, dir: map<Path, Meta>)
    requires Inventory(us, dir) && gone <= |us|
    ensures Distinct(us[gone..]) && forall u :: u in us[gone..] ==> Describes(u, dir)
  {
    assert forall u :: u in us[gone..] ==> u in us;
  }

  lemma {:induction false} SameBytes(paths: set<Path>, d: map<Path, Meta>, d': map<Path, Meta>)
    requires paths <= d.Keys && paths <= d'.Keys && forall p :: p in paths ==> d[p] == d'[p]
    ensures Bytes(paths, d) == Bytes(paths, d')
    decreases |paths|
  {
    if paths != {} {
      var p :| p in paths;
      BytesWithout(paths, d, p);
      BytesWithout(paths, d', p);
      SameBytes(paths - {p}, d, d');
    }
  }

  /**
   The promise in terms of the directory, when no unlink fails: no data file older than the cutoff is left, nor an
   older sidecar without its data file; and what is removable takes up no more bytes than the quota, unless nothing
   removable is left.
   */
  lemma {:induction false} NothingOldNothingOver(
    us: seq<Unit>, gone: nat, before: map<Path, Meta>, after: map<Path, Meta>, cutoff: int, max: int)
    requires Inventory(us, before) && gone <= |us| && after == before - UnionPaths(us[..gone])
    requires forall i :: gone <= i < |us| ==> us[i].mtime >= cutoff
    requires max < 0 || Total(us[gone..]) <= max || gone == |us|
    ensures forall k :: Data(k) in after ==> after[Data(k)].mtime >= cutoff
    ensures forall k :: SidecarOf(k) in after && Data(k) !in before ==> after[SidecarOf(k)].mtime >= cutoff
    ensures var left := set p | p in after && Removable(p);
      max < 0 || left == {} || Bytes(left, after) <= max
  {
    CleanSweep(us, gone, before, after);
    var rest := us[gone..];
    forall p | p in after && Removable(p) && (p.SidecarOf? ==> Data(p.id) !in before)
      ensures after[p].mtime >= cutoff
    {
      UnionMember(rest, p);
      var i :| 0 <= i < |rest| && p in PathsOf(rest[i]);
      assert rest[i] == us[gone + i] && us[gone + i] in us && Describes(us[gone + i], before);
    }
    var left := set p | p in after && Removable(p);
    assert left == UnionPaths(rest);
    RestDescribed(us, gone, before);
    TotalIsBytes(rest, before);
    SameBytes(left, before, after);
    if gone == |us| {
      assert rest == [];
    }
  }
}
