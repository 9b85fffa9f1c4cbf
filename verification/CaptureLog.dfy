/**
 The capture directory as a system of filesystem actions, with a crash possible between any two.
 The writer (module WalWriter) only ever takes these actions; here they are proved to keep the
 log equal to what the writer acknowledged.
 */
module CaptureLog {
  import opened Bytes
  import opened Json
  import opened GzipReader
  import opened Options
  import opened Sequences

  /** A completed file `guardian_capture_{ts}_{seq}.jsonl.gz`; the fallback name appends the pid. */
  datatype Name = Name(ts: int, num: nat) | Overflow(ts: int, num: nat, pid: nat)

  /** A checksum file: opened but not filled, or the checksum of some content. */
  datatype Sidecar = Partial | Sum(of: Content)

  /** `synced` bytes of the active file are known to be on stable storage. */
  datatype Disk = Disk(
    active: Option<Content>,
    synced: nat,
    files: map<Name, Content>,
    temps: set<Name>,
    sidecars: map<Name, Sidecar>,
    saved: Option<nat>)

  /** One write: its record, and whether it returned success. */
  datatype Attempt = Attempt(record: bytes, ok: bool)

  /** The disk plus what the proof remembers: the rotation order and every write that reached the file. */
  datatype State = State(disk: Disk, order: seq<Name>, tried: seq<Attempt>)

  const INIT := State(Disk(None, 0, map[], {}, map[], None), [], [])

  /**
   What a crash leaves of the bytes that were never fsynced: `kept` bytes of the active file, and whatever of the
   sidecars and of the state file had reached the disk.
   */
  datatype Remains = Remains(kept: nat, sidecars: map<Name, Sidecar>, saved: Option<nat>)

  datatype Step =
    | Create
    | Terminate(synced: bool)
    | Write(record: bytes)
    | FailWrite(record: bytes, written: nat)
    | Crash(left: Remains)
    | Rename(n: Name)
    | MakeTemp(n: Name)
    | DropTemp(n: Name)
    | Compress(n: Name)
    | Restore(n: Name)
    | OpenSidecar(n: Name)
    | FillSidecar(n: Name)
    | SaveState(num: nat)

  function Append(c: Content, b: bytes): Content {
    match c
    case Plain(text) => Plain(text + b)
    case Gz(inner, trail) => Gz(inner, trail + b)
  }

  function Size(c: Content): nat {
    match c case Plain(text) => |text| case Gz(_, trail) => |trail|
  }

  /** The action can physically happen. */
  ghost predicate Enabled(d: Disk, e: Step) {
    match e
    case Create => d.active.None?
    case Terminate(_) => d.active.Some? && (d.active.value.Plain? ==> Tail(d.active.value.text) != [])
    case Write(r) => d.active.Some? && IsRecord(r)
    case FailWrite(r, k) => d.active.Some? && IsRecord(r) && k <= |r| + 1
    case Crash(left) =>
      && (d.active.Some? && d.active.value.Plain? ==> d.synced <= left.kept <= |d.active.value.text|)
      && forall n :: n in left.sidecars ==>
           n in d.sidecars && (left.sidecars[n].Partial? || left.sidecars[n] == d.sidecars[n])
    case Rename(_) => d.active.Some?
    case MakeTemp(n) => n in d.files
    case DropTemp(_) => true
    case Compress(n) => n in d.temps && n in d.files
    case Restore(n) => n in d.files && d.active.None?
    case OpenSidecar(n) => n in d.files
    case FillSidecar(n) => n in d.files && n in d.sidecars
    case SaveState(_) => true
  }

  /** No swallowed error misled the writer: records go after a closed line, gzip is recognized as gzip. */
  ghost predicate Sound(d: Disk, order: seq<Name>, e: Step) {
    match e
    case Terminate(_) => d.active.Some? && d.active.value.Plain?
    case Write(_) => AtLineStart(d)
    case FailWrite(_, _) => AtLineStart(d)
    case Rename(n) => AtLineStart(d) && d.synced == |d.active.value.text| && n !in d.files
    case Compress(n) => n in d.files && d.files[n].Plain?
    case Restore(n) => n in d.files && d.files[n].Plain? && order != [] && order[|order| - 1] == n
    case OpenSidecar(n) => n in d.files && d.files[n].Gz?
    case FillSidecar(n) => n in d.files && d.files[n].Gz?
    case _ => true
  }

  ghost predicate AtLineStart(d: Disk) {
    d.active.Some? && d.active.value.Plain? && Tail(d.active.value.text) == []
  }

  function ApplyDisk(d: Disk, e: Step): Disk
    requires Enabled(d, e)
  {
    match e
    case Create => d.(active := Some(Plain([])), synced := 0)
    case Terminate(s) =>
      var c := Append(d.active.value, [NL]);
      d.(active := Some(c), synced := if s then Size(c) else d.synced)
    case Write(r) =>
      var c := Append(d.active.value, r + [NL]);
      d.(active := Some(c), synced := Size(c))
    case FailWrite(r, k) => d.(active := Some(Append(d.active.value, (r + [NL])[..k])))
    case Crash(left) =>
      var d' := d.(sidecars := left.sidecars, saved := left.saved);
      if d.active.Some? && d.active.value.Plain?
      then d'.(active := Some(Plain(d.active.value.text[..left.kept]))) else d'
    case Rename(n) => d.(active := None, synced := 0, files := d.files[n := d.active.value])
    case MakeTemp(n) => d.(temps := d.temps + {n})
    case DropTemp(n) => d.(temps := d.temps - {n})
    case Compress(n) => d.(files := d.files[n := Gz(d.files[n], [])], temps := d.temps - {n})
    case Restore(n) => d.(active := Some(d.files[n]), synced := Size(d.files[n]), files := d.files - {n})
    case OpenSidecar(n) => d.(sidecars := d.sidecars[n := Partial])
    case FillSidecar(n) => d.(sidecars := d.sidecars[n := Sum(d.files[n])])
    case SaveState(q) => d.(saved := Some(q))
  }

  function TriedAfter(tried: seq<Attempt>, e: Step): seq<Attempt> {
    match e
    case Write(r) => tried + [Attempt(r, true)]
    case FailWrite(r, _) => tried + [Attempt(r, false)]
    case _ => tried
  }

  ghost function Apply(s: State, e: Step): State
    requires Enabled(s.disk, e)
  {
    State(
      ApplyDisk(s.disk, e),
      match e
      case Rename(n) => s.order + [n]
      case Restore(n) => if s.order != [] then s.order[..|s.order| - 1] else []
      case _ => s.order,
      TriedAfter(s.tried, e))
  }

  // ---------- runs ----------

  /** The state after `steps`, if each could happen where it did (and, when asked, was sound). */
  ghost function Exec(steps: seq<Step>, sound: bool): Option<State> {
    if steps == [] then Some(INIT)
    else
      var pre, e := Exec(steps[..|steps| - 1], sound), steps[|steps| - 1];
      if pre.Some? && Enabled(pre.value.disk, e) && (sound ==> Sound(pre.value.disk, pre.value.order, e))
      then Some(Apply(pre.value, e)) else None
  }

  /** One more step from a reached state. */
  lemma {:induction false} ExecSnoc(steps: seq<Step>, s: State, e: Step, sound: bool)
    requires Exec(steps, sound) == Some(s) && Enabled(s.disk, e) && (sound ==> Sound(s.disk, s.order, e))
    ensures Exec(steps + [e], sound) == Some(Apply(s, e))
  {
    LastOfAppend(steps, e);
  }

  // ---------- what a reader sees ----------

  /** The events of the completed files, in rotation order. */
  ghost function FileEvents(order: seq<Name>, files: map<Name, Content>): seq<bytes> {
    if order == [] then []
    else
      var n := order[|order| - 1];
      FileEvents(order[..|order| - 1], files) + (if n in files then Events(files[n]) else [])
  }

  /** Every event of the log: completed files first, then the active file. */
  ghost function ReadEvents(s: State): seq<bytes> {
    FileEvents(s.order, s.disk.files) + (if s.disk.active.Some? then Events(s.disk.active.value) else [])
  }

  // ---------- the history that explains a state ----------

  /** A line of the log: an acknowledged record, or what an interrupted write left behind. */
  datatype Entry = Acked(line: bytes) | Extra(line: bytes)

  function EntryLines(hist: seq<Entry>): seq<bytes> {
    seq(|hist|, i requires 0 <= i < |hist| => hist[i].line)
  }

  /** The records whose write succeeded, in write order. */
  function Succeeded(tried: seq<Attempt>): seq<bytes> {
    if tried == [] then []
    else
      var a := tried[|tried| - 1];
      Succeeded(tried[..|tried| - 1]) + (if a.ok then [a.record] else [])
  }

  /** All records, in write order. */
  function RecordsOf(tried: seq<Attempt>): seq<bytes> {
    if tried == [] then [] else RecordsOf(tried[..|tried| - 1]) + [tried[|tried| - 1].record]
  }

  function Failures(tried: seq<Attempt>): nat {
    if tried == [] then 0 else Failures(tried[..|tried| - 1]) + (if tried[|tried| - 1].ok then 0 else 1)
  }

  /**
   The history tells the writes in order: a successful one left exactly its record, acknowledged; a
   failed one left nothing or a nonempty start of its record; and nothing else left anything.
   */
  ghost predicate Aligned(hist: seq<Entry>, tried: seq<Attempt>) {
    if tried == [] then hist == []
    else
      var a, rest := tried[|tried| - 1], tried[..|tried| - 1];
      || (hist != [] && Left(hist[|hist| - 1], a) && Aligned(hist[..|hist| - 1], rest))
      || (!a.ok && Aligned(hist, rest))
  }

  /** What one write may leave behind as a line of the log. */
  predicate Left(e: Entry, a: Attempt) {
    if a.ok then e == Acked(a.record) else e.Extra? && e.line != [] && e.line <= a.record
  }

  ghost predicate TriedRecords(tried: seq<Attempt>) {
    forall i :: 0 <= i < |tried| ==> IsRecord(tried[i].record)
  }

  ghost predicate StartsRecord(p: bytes) {
    exists r :: IsRecord(r) && p <= r
  }

  ghost predicate EntryOk(e: Entry) {
    if e.Acked? then IsRecord(e.line) else e.line != [] && StartsRecord(e.line)
  }

  function Text(c: Content): bytes {
    match c
    case Plain(text) => text
    case Gz(Plain(text), _) => text
    case Gz(Gz(_, _), _) => []
  }

  function TextOf(files: map<Name, Content>, n: Name): bytes {
    if n in files then Text(files[n]) else []
  }

  function ActiveText(d: Disk): bytes {
    if d.active.Some? then Text(d.active.value) else []
  }

  function FileLines(order: seq<Name>, files: map<Name, Content>): seq<bytes> {
    if order == [] then []
    else FileLines(order[..|order| - 1], files) + Lines(TextOf(files, order[|order| - 1]))
  }

  predicate OpensWithBrace(text: bytes) {
    text == [] || text[0] == LBRACE
  }

  ghost predicate FileOk(c: Content) {
    && (c.Plain? || (c.inner.Plain? && c.trail == []))
    && OpensWithBrace(Text(c)) && Tail(Text(c)) == []
  }

  ghost predicate ActiveOk(d: Disk) {
    match d.active
    case None => d.synced == 0
    case Some(c) => c.Plain?
  }

  ghost predicate OrderOk(order: seq<Name>, files: map<Name, Content>) {
    && (forall i, j :: 0 <= i < j < |order| ==> order[i] != order[j])
    && (forall n :: n in files <==> n in order)
  }

  /** A sidecar belongs to a compressed file; once filled it is the checksum of exactly that file. */
  ghost predicate SidecarsOk(d: Disk) {
    forall n :: n in d.sidecars ==>
      n in d.files && d.files[n].Gz? && (d.sidecars[n].Sum? ==> d.sidecars[n].of == d.files[n])
  }

  ghost predicate FilesOk(files: map<Name, Content>) {
    forall n :: n in files ==> FileOk(files[n])
  }

  ghost predicate ShapeOk(d: Disk, order: seq<Name>) {
    && OrderOk(order, d.files)
    && FilesOk(d.files)
    && ActiveOk(d)
    && SidecarsOk(d)
  }

  /** Only unacknowledged lines lie beyond the fsynced part `t[..synced]` of the active text. */
  ghost predicate AckedSynced(base: nat, t: bytes, synced: nat, hist: seq<Entry>)
    requires synced <= |t|
  {
    forall i :: base + |Lines(t[..synced])| <= i < |hist| ==> hist[i].Extra?
  }

  /** The line still open at the end of the active text. */
  function Open(t: bytes): seq<Entry> {
    if Tail(t) == [] then [] else [Extra(Tail(t))]
  }

  /** Completed lines `base` and active text `t` are exactly the lines of `hist`, which tells the writes in order. */
  ghost predicate LogOk(base: seq<bytes>, t: bytes, synced: nat, hist: seq<Entry>, tried: seq<Attempt>) {
    && synced <= |t| && OpensWithBrace(t)
    && (Tail(t) == [] || StartsRecord(Tail(t)))
    && base + Lines(t) == EntryLines(hist)
    && (forall i :: 0 <= i < |hist| ==> EntryOk(hist[i]))
    && AckedSynced(|base|, t, synced, hist)
    && TriedRecords(tried) && Aligned(hist + Open(t), tried)
  }

  ghost predicate Explains(s: State, hist: seq<Entry>) {
    && ShapeOk(s.disk, s.order)
    && LogOk(FileLines(s.order, s.disk.files), ActiveText(s.disk), s.disk.synced, hist, s.tried)
  }

  // ---------- bookkeeping lemmas ----------

  lemma {:induction false} FileLinesFrame(order: seq<Name>, f: map<Name, Content>, g: map<Name, Content>)
    requires forall n :: n in order ==> Lines(TextOf(f, n)) == Lines(TextOf(g, n))
    ensures FileLines(order, f) == FileLines(order, g)
    decreases |order|
  {
    if order != [] {
      FileLinesFrame(order[..|order| - 1], f, g);
    }
  }

  lemma {:induction false} EntryLinesSnoc(hist: seq<Entry>, e: Entry)
    ensures EntryLines(hist + [e]) == EntryLines(hist) + [e.line]
  {
  }

  /** One more write, and the line it left. */
  lemma {:induction false} AlignedSnoc(hist: seq<Entry>, tried: seq<Attempt>, e: Entry, a: Attempt)
    requires Aligned(hist, tried)
    ensures Left(e, a) ==> Aligned(hist + [e], tried + [a])
    ensures !a.ok ==> Aligned(hist, tried + [a])
  {
    LastOfAppend(tried, a);
    LastOfAppend(hist, e);
  }

  /** A torn line may lose its end, or vanish. */
  lemma {:induction false} AlignedCut(hist: seq<Entry>, x: bytes, y: bytes, tried: seq<Attempt>)
    requires Aligned(hist + [Extra(x)], tried) && y <= x
    ensures Aligned(if y == [] then hist else hist + [Extra(y)], tried)
    decreases |tried|
  {
    LastOfAppend(hist, Extra(x));
    LastOfAppend(hist, Extra(y));
    var a, rest := tried[|tried| - 1], tried[..|tried| - 1];
    if !Left(Extra(x), a) || !Aligned(hist, rest) {
      AlignedCut(hist, x, y, rest);
    }
  }

  /** Trailing leftovers can go without touching the tale of the writes. */
  lemma {:induction false} AlignedDrop(hist: seq<Entry>, k: nat, tried: seq<Attempt>)
    requires Aligned(hist, tried) && k <= |hist| && forall i :: k <= i < |hist| ==> hist[i].Extra?
    ensures Aligned(hist[..k], tried)
    decreases |hist| - k
  {
    if k == |hist| {
      assert hist[..k] == hist;
    } else {
      AlignedDrop(hist, k + 1, tried);
      NextPrefix(hist, k);
      AlignedCut(hist[..k], hist[k].line, [], tried);
    }
  }

  lemma {:induction false} StartsRecordShape(p: bytes)
    requires StartsRecord(p)
    ensures NL !in p && (p != [] ==> p[0] == LBRACE)
    ensures forall q :: q <= p ==> StartsRecord(q)
  {
    var r :| IsRecord(r) && p <= r;
    RecordShape(r);
    forall q | q <= p ensures StartsRecord(q) {
      assert q <= r;
    }
  }

  // ---------- the active text under appends, truncation and rotation ----------

  lemma {:induction false} TerminateLog(
    base: seq<bytes>, t: bytes, synced: nat, hist: seq<Entry>, tried: seq<Attempt>, all: bool)
    requires LogOk(base, t, synced, hist, tried) && Tail(t) != []
    ensures LogOk(base, t + [NL], if all then |t| + 1 else synced, hist + [Extra(Tail(t))], tried)
  {
    var p, t' := Tail(t), t + [NL];
    AppendLine(t, []);
    assert t + [] + [NL] == t' && p + [] == p;
    EntryLinesSnoc(hist, Extra(p));
    assert base + (Lines(t) + [p]) == base + Lines(t) + [p];
    assert t'[..synced] == t[..synced] && t'[..|t'|] == t';
    assert |EntryLines(hist)| == |hist|;
    assert hist + [Extra(p)] + Open(t') == hist + Open(t);
  }

  /** One more whole line, acknowledged or not. */
  lemma {:induction false} LineAdded(base: seq<bytes>, t: bytes, synced: nat, hist: seq<Entry>, e: Entry)
    requires synced <= |t| && OpensWithBrace(t) && Tail(t) == [] && IsRecord(e.line)
    requires base + Lines(t) == EntryLines(hist)
    ensures
      var t' := t + (e.line + [NL]);
      && |t'| == |t| + |e.line| + 1 && t'[..synced] == t[..synced] && t'[..|t'|] == t'
      && OpensWithBrace(t') && Tail(t') == []
      && base + Lines(t') == EntryLines(hist + [e]) && |base| + |Lines(t')| == |hist + [e]|
      && hist + Open(t) == hist && hist + [e] + Open(t') == hist + [e]
  {
    RecordShape(e.line);
    AppendLine(t, e.line);
    assert t + e.line + [NL] == t + (e.line + [NL]) && [] + e.line == e.line;
    EntryLinesSnoc(hist, e);
    Regroup(base, Lines(t), [e.line]);
  }

  lemma {:induction false} WriteLog(
    base: seq<bytes>, t: bytes, synced: nat, r: bytes, hist: seq<Entry>, tried: seq<Attempt>)
    requires LogOk(base, t, synced, hist, tried) && Tail(t) == [] && IsRecord(r)
    ensures LogOk(base, t + (r + [NL]), |t| + |r| + 1, hist + [Acked(r)], tried + [Attempt(r, true)])
  {
    LineAdded(base, t, synced, hist, Acked(r));
    AlignedSnoc(hist, tried, Acked(r), Attempt(r, true));
  }

  /** A failed write that left its whole line: a line of its own, not acknowledged. */
  lemma {:induction false} FailWriteWhole(
    base: seq<bytes>, t: bytes, synced: nat, r: bytes, hist: seq<Entry>, tried: seq<Attempt>)
    requires LogOk(base, t, synced, hist, tried) && Tail(t) == [] && IsRecord(r)
    ensures LogOk(base, t + (r + [NL]), synced, hist + [Extra(r)], tried + [Attempt(r, false)])
  {
    RecordShape(r);
    LineAdded(base, t, synced, hist, Extra(r));
    assert r <= r;
    AlignedSnoc(hist, tried, Extra(r), Attempt(r, false));
  }

  /** A failed write that left a proper start of its line: a torn tail, or nothing. */
  lemma {:induction false} FailWritePart(
    base: seq<bytes>, t: bytes, synced: nat, r: bytes, w: bytes, hist: seq<Entry>, tried: seq<Attempt>)
    requires LogOk(base, t, synced, hist, tried) && Tail(t) == [] && IsRecord(r) && w <= r
    ensures LogOk(base, t + w, synced, hist, tried + [Attempt(r, false)])
  {
    RecordShape(r);
    AppendPlain(t, w);
    assert [] + w == w && (t + w)[..synced] == t[..synced];
    assert hist + Open(t) == hist && Open(t + w) == if w == [] then [] else [Extra(w)];
    AlignedSnoc(hist, tried, Extra(w), Attempt(r, false));
  }

  /** A failed write leaves `written` bytes of its line: nothing new, a torn tail, or the whole line. */
  lemma {:induction false} FailWriteLog(
    base: seq<bytes>, t: bytes, synced: nat, r: bytes, written: nat, hist: seq<Entry>, tried: seq<Attempt>)
    returns (hist': seq<Entry>)
    requires LogOk(base, t, synced, hist, tried) && Tail(t) == [] && IsRecord(r) && written <= |r| + 1
    ensures LogOk(base, t + (r + [NL])[..written], synced, hist', tried + [Attempt(r, false)])
  {
    if written == |r| + 1 {
      assert (r + [NL])[..written] == r + [NL];
      FailWriteWhole(base, t, synced, r, hist, tried);
      hist' := hist + [Extra(r)];
    } else {
      assert (r + [NL])[..written] == r[..written];
      FailWritePart(base, t, synced, r, r[..written], hist, tried);
      hist' := hist;
    }
  }

  /** A crash can only cut away bytes that were never acknowledged. */
  lemma {:induction false} CrashLog(
    base: seq<bytes>, t: bytes, synced: nat, k: nat, hist: seq<Entry>, tried: seq<Attempt>)
    returns (hist': seq<Entry>)
    requires LogOk(base, t, synced, hist, tried) && synced <= k <= |t|
    ensures LogOk(base, t[..k], synced, hist', tried)
  {
    var lines, kept := Lines(t), |base| + |Lines(t[..k])|;
    Truncate(t, k);
    TruncateMonotone(t, synced, k);
    assert t[..k][..synced] == t[..synced];
    assert |EntryLines(hist)| == |hist|;
    hist' := hist[..kept];
    assert EntryLines(hist') == (base + lines)[..kept];
    assert (base + lines)[..kept] == base + lines[..kept - |base|];
    assert lines[..kept - |base|] == Lines(t[..k]);
    if kept < |hist| {
      assert (base + lines)[kept] == lines[kept - |base|];
      assert EntryLines(hist)[kept] == hist[kept].line;
      StartsRecordShape(hist[kept].line);
    } else if Tail(t) != [] {
      StartsRecordShape(Tail(t));
    }
    CrashAligned(hist, t, tried, kept, Tail(t[..k]));
    assert hist' + Open(t[..k]) == if Tail(t[..k]) == [] then hist' else hist' + [Extra(Tail(t[..k]))];
  }

  /** What a crash leaves open is the start of the first line it cut. */
  lemma {:induction false} CrashAligned(hist: seq<Entry>, t: bytes, tried: seq<Attempt>, kept: nat, y: bytes)
    requires Aligned(hist + Open(t), tried) && kept <= |hist| && forall i :: kept <= i < |hist| ==> hist[i].Extra?
    requires if kept < |hist| then y <= hist[kept].line else y <= Tail(t)
    ensures Aligned(if y == [] then hist[..kept] else hist[..kept] + [Extra(y)], tried)
  {
    var all := hist + Open(t);
    if kept < |all| {
      AlignedDrop(all, kept + 1, tried);
      NextPrefix(all, kept);
      assert all[..kept] == hist[..kept];
      AlignedCut(hist[..kept], all[kept].line, y, tried);
    } else {
      assert all == hist == hist[..kept];
    }
  }

  /** A fully synced, newline-terminated active text may move in front of an empty one, and back. */
  lemma {:induction false} MoveLog(base: seq<bytes>, t: bytes, hist: seq<Entry>, tried: seq<Attempt>)
    requires Tail(t) == [] && OpensWithBrace(t)
    ensures LogOk(base, t, |t|, hist, tried) <==> LogOk(base + Lines(t), [], 0, hist, tried)
  {
    assert t[..|t|] == t;
    assert base + Lines(t) + Lines([]) == base + Lines(t);
    assert |EntryLines(hist)| == |hist|;
  }

  // ---------- every action keeps the log explained ----------

  lemma {:induction false} RenameShape(s: State, n: Name)
    requires ShapeOk(s.disk, s.order) && Enabled(s.disk, Rename(n)) && Sound(s.disk, s.order, Rename(n))
    requires OpensWithBrace(ActiveText(s.disk))
    ensures var s' := Apply(s, Rename(n));
      && ShapeOk(s'.disk, s'.order)
      && FileLines(s'.order, s'.disk.files) == FileLines(s.order, s.disk.files) + Lines(ActiveText(s.disk))
  {
    var d := s.disk;
    var c := d.active.value;
    OrderAdded(s.order, d.files, n, c);
    FilesAdded(d.files, n, c);
    SidecarsAdded(d, n, c);
    LinesAdded(s.order, d.files, n, c);
  }

  lemma {:induction false} FilesAdded(files: map<Name, Content>, n: Name, c: Content)
    requires FilesOk(files) && FileOk(c)
    ensures FilesOk(files[n := c])
  {
  }

  lemma {:induction false} SidecarsAdded(d: Disk, n: Name, c: Content)
    requires SidecarsOk(d) && n !in d.files
    ensures SidecarsOk(d.(active := None, synced := 0, files := d.files[n := c]))
  {
    assert n !in d.sidecars;
  }

  lemma {:induction false} LinesAdded(order: seq<Name>, files: map<Name, Content>, n: Name, c: Content)
    requires OrderOk(order, files) && n !in files
    ensures FileLines(order + [n], files[n := c]) == FileLines(order, files) + Lines(Text(c))
  {
    assert (order + [n])[..|order|] == order;
    FileLinesFrame(order, files, files[n := c]);
  }

  lemma {:induction false} OrderAdded(order: seq<Name>, files: map<Name, Content>, n: Name, c: Content)
    requires OrderOk(order, files) && n !in files
    ensures OrderOk(order + [n], files[n := c])
  {
    forall m ensures m in files[n := c] <==> m in order + [n] {
      assert m in order + [n] <==> m in order || m == n;
    }
  }

  lemma {:induction false} RestoreShape(s: State, n: Name)
    requires ShapeOk(s.disk, s.order) && Enabled(s.disk, Restore(n)) && Sound(s.disk, s.order, Restore(n))
    ensures var s' := Apply(s, Restore(n));
      && ShapeOk(s'.disk, s'.order)
      && FileLines(s.order, s.disk.files) == FileLines(s'.order, s'.disk.files) + Lines(ActiveText(s'.disk))
  {
    var d, order' := s.disk, s.order[..|s.order| - 1];
    assert s.order == order' + [n];
    OrderRemoved(order', d.files, n);
    SidecarsRemoved(d, n);
    LinesRemoved(order', d.files, n);
  }

  lemma {:induction false} LinesRemoved(order: seq<Name>, files: map<Name, Content>, n: Name)
    requires OrderOk(order + [n], files)
    ensures n in files && FileLines(order + [n], files) == FileLines(order, files - {n}) + Lines(Text(files[n]))
  {
    LastOfAppend(order, n);
    assert n in order + [n];
    assert forall i :: 0 <= i < |order| ==> order[i] == (order + [n])[i];
    FileLinesFrame(order, files, files - {n});
  }

  lemma {:induction false} OrderRemoved(order: seq<Name>, files: map<Name, Content>, n: Name)
    requires OrderOk(order + [n], files) && FilesOk(files)
    ensures OrderOk(order, files - {n}) && FilesOk(files - {n}) && n !in order
  {
    assert forall i :: 0 <= i < |order| ==> order[i] == (order + [n])[i];
    assert (order + [n])[|order|] == n;
    forall m ensures m in files - {n} <==> m in order {
      assert m in order + [n] <==> m in order || m == n;
    }
  }

  lemma {:induction false} SidecarsRemoved(d: Disk, n: Name)
    requires SidecarsOk(d) && n in d.files && d.files[n].Plain?
    ensures SidecarsOk(d.(active := Some(d.files[n]), synced := Size(d.files[n]), files := d.files - {n}))
  {
    assert n !in d.sidecars;
  }

  lemma {:induction false} CompressShape(s: State, n: Name)
    requires ShapeOk(s.disk, s.order) && Enabled(s.disk, Compress(n)) && Sound(s.disk, s.order, Compress(n))
    ensures var s' := Apply(s, Compress(n));
      && ShapeOk(s'.disk, s'.order)
      && FileLines(s'.order, s'.disk.files) == FileLines(s.order, s.disk.files)
  {
    var d := s.disk;
    var files' := d.files[n := Gz(d.files[n], [])];
    FilesAdded(d.files, n, Gz(d.files[n], []));
    SidecarsCompressed(d, n);
    assert OrderOk(s.order, files') by {
      assert files'.Keys == d.files.Keys;
    }
    FileLinesFrame(s.order, d.files, files');
  }

  lemma {:induction false} SidecarsCompressed(d: Disk, n: Name)
    requires SidecarsOk(d) && n in d.files && d.files[n].Plain?
    ensures SidecarsOk(d.(files := d.files[n := Gz(d.files[n], [])], temps := d.temps - {n}))
  {
    assert n !in d.sidecars;
  }

  lemma {:induction false} SidecarShape(s: State, e: Step)
    requires ShapeOk(s.disk, s.order) && Enabled(s.disk, e) && Sound(s.disk, s.order, e)
    requires e.OpenSidecar? || e.FillSidecar?
    ensures ShapeOk(Apply(s, e).disk, s.order)
  {
    var d, d' := s.disk, Apply(s, e).disk;
    assert d' == d.(sidecars := d'.sidecars);
  }

  lemma {:induction false} CrashShape(s: State, left: Remains)
    requires ShapeOk(s.disk, s.order) && Enabled(s.disk, Crash(left))
    ensures ShapeOk(Apply(s, Crash(left)).disk, s.order)
  {
    var d' := Apply(s, Crash(left)).disk;
    assert d'.files == s.disk.files && d'.synced == s.disk.synced;
  }

  lemma {:induction false} OtherShape(s: State, e: Step)
    requires ShapeOk(s.disk, s.order) && Enabled(s.disk, e) && Sound(s.disk, s.order, e)
    requires !e.Rename? && !e.Restore? && !e.Compress?
    ensures var s' := Apply(s, e);
      && ShapeOk(s'.disk, s'.order)
      && s'.order == s.order && s'.disk.files == s.disk.files
  {
    if e.OpenSidecar? || e.FillSidecar? {
      SidecarShape(s, e);
    } else if e.Crash? {
      CrashShape(s, e.left);
    } else {
      var d, d' := s.disk, Apply(s, e).disk;
      assert d'.files == d.files && d'.sidecars == d.sidecars;
      assert ActiveOk(d');
    }
  }

  /** Actions on the active file's bytes. */
  predicate OnActive(e: Step) {
    e.Terminate? || e.Write? || e.FailWrite? || e.Crash?
  }

  function TextAfter(e: Step, t: bytes): bytes
    requires OnActive(e)
    requires e.FailWrite? ==> e.written <= |e.record| + 1
    requires e.Crash? ==> e.left.kept <= |t|
  {
    match e
    case Terminate(_) => t + [NL]
    case Write(r) => t + (r + [NL])
    case FailWrite(r, k) => t + (r + [NL])[..k]
    case Crash(left) => t[..left.kept]
  }

  lemma {:induction false} ActiveStepKeeps(s: State, e: Step, base: seq<bytes>, hist: seq<Entry>)
    returns (hist': seq<Entry>)
    requires Enabled(s.disk, e) && OnActive(e) && (!e.Crash? && !e.Terminate? ==> AtLineStart(s.disk))
    requires s.disk.active.Some? && s.disk.active.value.Plain?
    requires LogOk(base, ActiveText(s.disk), s.disk.synced, hist, s.tried)
    ensures
      var s' := Apply(s, e);
      LogOk(base, ActiveText(s'.disk), s'.disk.synced, hist', s'.tried)
  {
    var t, synced, s' := ActiveText(s.disk), s.disk.synced, Apply(s, e);
    assert ActiveText(s'.disk) == TextAfter(e, t);
    if e.Terminate? {
      TerminateLog(base, t, synced, hist, s.tried, e.synced);
      hist' := hist + [Extra(Tail(t))];
    } else if e.Write? {
      WriteLog(base, t, synced, e.record, hist, s.tried);
      hist' := hist + [Acked(e.record)];
    } else if e.FailWrite? {
      hist' := FailWriteLog(base, t, synced, e.record, e.written, hist, s.tried);
    } else {
      hist' := CrashLog(base, t, synced, e.left.kept, hist, s.tried);
    }
  }

  /** Whatever action comes next, the log stays explained. */
  lemma {:induction false} StepKeeps(s: State, e: Step, hist: seq<Entry>) returns (hist': seq<Entry>)
    requires Explains(s, hist) && Enabled(s.disk, e) && Sound(s.disk, s.order, e)
    ensures Explains(Apply(s, e), hist')
    ensures !OnActive(e) ==> hist' == hist
  {
    hist' := hist;
    var s' := Apply(s, e);
    if e.Rename? {
      RenameShape(s, e.n);
      MoveLog(FileLines(s.order, s.disk.files), ActiveText(s.disk), hist, s.tried);
    } else if e.Restore? {
      RestoreShape(s, e.n);
      MoveLog(FileLines(s'.order, s'.disk.files), ActiveText(s'.disk), hist, s.tried);
    } else if e.Compress? {
      CompressShape(s, e.n);
      assert ActiveText(s'.disk) == ActiveText(s.disk) && s'.disk.synced == s.disk.synced;
    } else {
      OtherShape(s, e);
      if OnActive(e) && s.disk.active.Some? {
        hist' := ActiveStepKeeps(s, e, FileLines(s.order, s.disk.files), hist);
      } else {
        assert ActiveText(s'.disk) == ActiveText(s.disk) && s'.disk.synced == s.disk.synced;
      }
    }
  }

  // ---------- reading an explained log ----------

  /** The complete records among the history lines. */
  ghost function Complete(hist: seq<Entry>): seq<bytes> {
    if hist == [] then []
    else
      var e := hist[|hist| - 1];
      Complete(hist[..|hist| - 1]) + (if IsRecord(e.line) then [e.line] else [])
  }

  /** An entry parses exactly when it is a record written in full. */
  lemma {:induction false} EntryParses(e: Entry)
    requires EntryOk(e)
    ensures IsJsonText(e.line) <==> IsRecord(e.line)
  {
    if IsRecord(e.line) {
      RecordIsJsonText(e.line);
    } else {
      var r :| IsRecord(r) && e.line <= r;
      assert e.line != r;
      TornRecordIsNotJson(e.line, r);
    }
  }

  /** The reader's two-byte probe can hide at most one torn brace, which is no event. */
  lemma {:induction false} ProbeHidesNoEvent(t: bytes)
    requires OpensWithBrace(t)
    ensures Events(Plain(t)) == Parsed(Lines(t))
  {
    if t != [] && |t| <= 2 {
      var open: bytes := [LBRACE];
      assert open !=  [] && Prints(Obj([], NoMembers), [LBRACE, RBRACE]);
      TornRecordIsNotJson(open, [LBRACE, RBRACE]);
      FeedPlain(EMPTY, open);
      if |t| == 2 && t[1] == NL {
        assert t == [] + open + [NL];
        AppendLine([], open);
        assert Tail([]) + open == open && Lines([]) + [open] == [open];
        assert Lines(t) == [open];
        assert [open][1..] == [];
      } else {
        assert NL !in t;
        FeedPlain(EMPTY, t);
      }
    }
  }

  lemma {:induction false} FilesRead(order: seq<Name>, files: map<Name, Content>)
    requires forall n :: n in order ==> n in files && FileOk(files[n])
    ensures FileEvents(order, files) == Parsed(FileLines(order, files))
    decreases |order|
  {
    if order != [] {
      var pre, n := order[..|order| - 1], order[|order| - 1];
      FilesRead(pre, files);
      ParsedAppend(FileLines(pre, files), Lines(TextOf(files, n)));
      if files[n].Plain? {
        ProbeHidesNoEvent(files[n].text);
      }
    }
  }

  lemma {:induction false} HistoryParses(hist: seq<Entry>)
    requires forall i :: 0 <= i < |hist| ==> EntryOk(hist[i])
    ensures Parsed(EntryLines(hist)) == Complete(hist)
    decreases |hist|
  {
    if hist != [] {
      var pre, e := hist[..|hist| - 1], hist[|hist| - 1];
      HistoryParses(pre);
      assert EntryLines(hist) == EntryLines(pre) + [e.line];
      ParsedAppend(EntryLines(pre), [e.line]);
      assert [e.line][1..] == [];
      EntryParses(e);
    }
  }

  /** Reading an explained log returns exactly the records its history holds in full. */
  lemma {:induction false} ExplainedReads(s: State, hist: seq<Entry>)
    requires Explains(s, hist)
    ensures ReadEvents(s) == Complete(hist)
  {
    var lines, t := FileLines(s.order, s.disk.files), ActiveText(s.disk);
    FilesRead(s.order, s.disk.files);
    ProbeHidesNoEvent(t);
    ParsedAppend(lines, Lines(t));
    HistoryParses(hist);
  }

  // ---------- the main theorems ----------

  lemma {:induction false} RunExplained(steps: seq<Step>) returns (hist: seq<Entry>)
    requires Exec(steps, true).Some?
    ensures Explains(Exec(steps, true).value, hist)
    decreases |steps|
  {
    if steps == [] {
      hist := [];
    } else {
      var pre := steps[..|steps| - 1];
      hist := RunExplained(pre);
      hist := StepKeeps(Exec(pre, true).value, steps[|steps| - 1], hist);
    }
  }

  /** The writes of a run, in order. */
  function Attempts(steps: seq<Step>): seq<Attempt> {
    if steps == [] then [] else TriedAfter(Attempts(steps[..|steps| - 1]), steps[|steps| - 1])
  }

  lemma {:induction false} RunTried(steps: seq<Step>, sound: bool)
    requires Exec(steps, sound).Some?
    ensures Exec(steps, sound).value.tried == Attempts(steps)
    decreases |steps|
  {
    if steps != [] {
      RunTried(steps[..|steps| - 1], sound);
    }
  }

  /**
   Crash recovery.  Over every run of writes, failed writes, rotation steps, sweeps and crashes, the log
   reads back as the whole records of a history that tells the run's writes in order: each successful
   one left exactly its record, each failed one nothing or the start of its own record.
   */
  lemma {:induction false} LogReadsBack(steps: seq<Step>) returns (hist: seq<Entry>)
    requires Exec(steps, true).Some?
    ensures ReadEvents(Exec(steps, true).value) == Complete(hist)
    ensures Aligned(hist + Open(ActiveText(Exec(steps, true).value.disk)), Attempts(steps))
  {
    hist := RunExplained(steps);
    ExplainedReads(Exec(steps, true).value, hist);
    RunTried(steps, true);
  }

  ghost predicate IsSubsequence<T>(a: seq<T>, b: seq<T>) {
    a == [] ||
    (b != [] &&
      var b' := b[..|b| - 1];
      (a[|a| - 1] == b[|b| - 1] && IsSubsequence(a[..|a| - 1], b')) || IsSubsequence(a, b'))
  }

  /** The events are the attempted records in order; only failed ones may be missing. */
  ghost predicate Kept(events: seq<bytes>, tried: seq<Attempt>) {
    if tried == [] then events == []
    else
      var a, rest := tried[|tried| - 1], tried[..|tried| - 1];
      || (events != [] && events[|events| - 1] == a.record && Kept(events[..|events| - 1], rest))
      || (!a.ok && Kept(events, rest))
  }

  /** A start of a record that is itself a record is that record. */
  lemma {:induction false} WholeStart(p: bytes, r: bytes)
    requires IsRecord(p) && IsRecord(r) && p <= r
    ensures p == r
  {
    RecordIsJsonText(p);
    RecordShape(p);
    if p != r {
      TornRecordIsNotJson(p, r);
    }
  }

  /** The whole records of such a history are the attempted records, some failed ones missing. */
  lemma {:induction false} CompleteIsKept(hist: seq<Entry>, tried: seq<Attempt>)
    requires Aligned(hist, tried) && TriedRecords(tried)
    ensures Kept(Complete(hist), tried)
    decreases |tried|
  {
    if tried != [] {
      var a, rest := tried[|tried| - 1], tried[..|tried| - 1];
      if hist != [] && Left(hist[|hist| - 1], a) && Aligned(hist[..|hist| - 1], rest) {
        var pre, e := hist[..|hist| - 1], hist[|hist| - 1];
        CompleteIsKept(pre, rest);
        if IsRecord(e.line) {
          WholeStart(e.line, a.record);
          LastOfAppend(Complete(pre), e.line);
        } else {
          assert Complete(hist) == Complete(pre);
        }
      } else {
        CompleteIsKept(hist, rest);
      }
    }
  }

  /** So the successful records are all there, nothing else is but attempted ones, and few of those. */
  lemma {:induction false} KeptBetween(events: seq<bytes>, tried: seq<Attempt>)
    requires Kept(events, tried)
    ensures IsSubsequence(Succeeded(tried), events) && IsSubsequence(events, RecordsOf(tried))
    ensures |Succeeded(tried)| <= |events| <= |Succeeded(tried)| + Failures(tried)
    decreases |tried|
  {
    if tried != [] {
      var a, rest := tried[|tried| - 1], tried[..|tried| - 1];
      LastOfAppend(RecordsOf(rest), a.record);
      LastOfAppend(Succeeded(rest), a.record);
      assert !a.ok ==> Succeeded(tried) == Succeeded(rest);
      if events != [] && events[|events| - 1] == a.record && Kept(events[..|events| - 1], rest) {
        KeptBetween(events[..|events| - 1], rest);
      } else {
        KeptBetween(events, rest);
      }
    }
  }

  lemma {:induction false} ExplainedIsKept(s: State, hist: seq<Entry>)
    requires Explains(s, hist)
    ensures Kept(ReadEvents(s), s.tried)
  {
    var t := ActiveText(s.disk);
    ExplainedReads(s, hist);
    if Tail(t) != [] {
      AlignedCut(hist, Tail(t), [], s.tried);
    }
    assert Tail(t) == [] ==> hist + Open(t) == hist;
    CompleteIsKept(hist, s.tried);
  }

  /**
   The same in terms a reader of the files can check: what is read are the run's records in write order,
   each at its own position, and only records whose write failed may be missing.
   */
  lemma {:induction false} AcknowledgedRecordsAreRead(steps: seq<Step>)
    requires Exec(steps, true).Some?
    ensures
      var events, tried := ReadEvents(Exec(steps, true).value), Attempts(steps);
      && Kept(events, tried)
      && IsSubsequence(Succeeded(tried), events) && IsSubsequence(events, RecordsOf(tried))
      && |events| <= |Succeeded(tried)| + Failures(tried)
  {
    var hist := RunExplained(steps);
    ExplainedIsKept(Exec(steps, true).value, hist);
    RunTried(steps, true);
    KeptBetween(ReadEvents(Exec(steps, true).value), Attempts(steps));
  }

  /**
   Every step of a rotation, of its recovery and of the startup sweep leaves what is read unchanged:
   the bytes are in the active slot, plain under the completed name, or compressed; never lost or doubled.
   */
  lemma {:induction false} RotationStepsInvisible(steps: seq<Step>, e: Step)
    requires Exec(steps, true).Some? && !OnActive(e)
    requires Enabled(Exec(steps, true).value.disk, e)
    requires Sound(Exec(steps, true).value.disk, Exec(steps, true).value.order, e)
    ensures ReadEvents(Apply(Exec(steps, true).value, e)) == ReadEvents(Exec(steps, true).value)
  {
    var s := Exec(steps, true).value;
    var hist := RunExplained(steps);
    var hist' := StepKeeps(s, e, hist);
    ExplainedReads(s, hist);
    ExplainedReads(Apply(s, e), hist);
  }

  // ---------- where the code does not meet the property ----------

  /** The active text after opening: a torn tail is closed off unless the attempt failed silently. */
  function Opened(t: bytes, terminated: bool): bytes {
    if Tail(t) != [] && terminated then t + [NL] else t
  }

  /**
   Closing a torn tail is fail-open.  The next record is read back as a line of its own exactly when
   there was no torn tail or closing it succeeded.
   */
  lemma {:induction false} TerminationExact(t: bytes, r: bytes, terminated: bool)
    requires IsRecord(r)
    ensures Lines(Opened(t, terminated) + r + [NL]) == Lines(Opened(t, terminated)) + [r]
       <==> Tail(t) == [] || terminated
  {
    RecordShape(r);
    var o := Opened(t, terminated);
    AppendLine(t, []);
    assert t + [] + [NL] == t + [NL];
    AppendLine(o, r);
    var lines := Lines(o);
    assert (lines + [Tail(o) + r])[|lines|] == Tail(o) + r && (lines + [r])[|lines|] == r;
    assert |Tail(o) + r| == |Tail(o)| + |r|;
    if Tail(o) == [] {
      assert Tail(o) + r == r;
    }
  }

  /**
   A swallowed failure costs no more than the line written next: whatever was closed before, and whatever is
   written later, is read as if that line were not there.
   */
  lemma {:induction false} GluedRecordCostsOneLine(t: bytes, r: bytes, later: bytes)
    requires OpensWithBrace(t) && Tail(t) != [] && IsRecord(r)
    ensures Events(Plain(t + (r + [NL]) + later)) == Events(Plain(t)) + Parsed([Tail(t) + r]) + Parsed(Lines(later))
    ensures |Parsed([Tail(t) + r])| <= 1
  {
    RecordShape(r);
    var front := t + (r + [NL]);
    AppendLine(t, r);
    assert t + r + [NL] == front;
    LinesAppend(front, later);
    ParsedAppend(Lines(t), [Tail(t) + r]);
    ParsedAppend(Lines(t) + [Tail(t) + r], Lines(later));
    assert t != [];
    ProbeHidesNoEvent(t);
    ProbeHidesNoEvent(front + later);
    assert [Tail(t) + r][1..] == [];
  }

  /**
   But that line need not be lost: two torn records that are glued can be a record nobody tried to write.  The
   starts of {"a":""} and {"}":""} join to {"a":"{"}.
   */
  lemma {:induction false} GluedStartsForgeARecord() returns (r: bytes, q: bytes, p: bytes, w: bytes)
    ensures IsRecord(r) && IsRecord(q) && p < r && w < q && p != [] && w != []
    ensures IsRecord(p + w) && p + w != r && p + w != q
  {
    var a, open, close := [Raw(97)], [Raw(LBRACE)], [Raw(RBRACE)];
    OneItem(97);
    OneItem(LBRACE);
    OneItem(RBRACE);
    r := OneMemberText(a, []);
    q := OneMemberText(close, []);
    var forged := OneMemberText(a, open);
    p := [LBRACE] + Quoted(a) + [COLON, QUOTE];
    w := [LBRACE, QUOTE, RBRACE];
    assert p + w == forged;
    assert |r| == |q| == 8 && |forged| == 9;
  }

  lemma {:induction false} OneItem(b: byte)
    ensures Quoted([Raw(b)]) == [QUOTE, b, QUOTE]
  {
    var items := [Raw(b)];
    assert items[1..] == [] && items[0] == Raw(b);
    assert RenderItems(items) == [b] + RenderItems(items[1..]);
  }

  function OneMember(key: seq<Item>, value: seq<Item>): Value {
    Obj([], Member([], key, [], [], Str(value), [], NoMembers))
  }

  lemma {:induction false} OneMemberText(key: seq<Item>, value: seq<Item>) returns (r: bytes)
    requires OkItems(key) && OkItems(value)
    ensures IsRecord(r) && r == [LBRACE] + Quoted(key) + [COLON] + Quoted(value) + [RBRACE]
  {
    r := Render(OneMember(key, value));
    assert Prints(OneMember(key, value), r);
    assert RenderMembers(OneMember(key, value).members)
        == [] + (Quoted(key) + ([] + ([COLON] + ([] + (Quoted(value) + ([] + []))))));
    PadNothing(Quoted(key), Quoted(value));
  }

  lemma {:induction false} PadNothing(k: bytes, v: bytes)
    ensures [LBRACE] + ([] + ([] + (k + ([] + ([COLON] + ([] + (v + ([] + [])))))))) + [RBRACE]
         == [LBRACE] + k + [COLON] + v + [RBRACE]
  {
  }

  /**
   The magic probe answers "plain" on a read error.  If that sends a compressed file back to the
   active slot, later records are invisible: appending is read back exactly when the file was plain.
   */
  lemma {:induction false} MisreadProbeExact(c: Content, r: bytes)
    requires FileOk(c) && IsRecord(r)
    ensures Events(Append(c, r + [NL])) == Events(c) + [r] <==> c.Plain?
  {
    RecordShape(r);
    match c
    case Plain(t) =>
      AppendLine(t, r);
      assert t + r + [NL] == t + (r + [NL]) && [] + r == r;
      ProbeHidesNoEvent(t);
      ProbeHidesNoEvent(t + (r + [NL]));
      ParsedAppend(Lines(t), [r]);
      assert [r][1..] == [];
      RecordIsJsonText(r);
    case Gz(_, _) =>
      assert Events(Append(c, r + [NL])) == Events(c);
      assert |Events(c) + [r]| == |Events(c)| + 1;
  }

  /**
   The same misread in the startup sweep compresses a compressed file once more, which hides its records:
   compressing a completed file leaves what is read as it was exactly when the file was plain or held nothing.
   */
  lemma {:induction false} CompressedAgainExact(c: Content)
    requires FileOk(c)
    ensures Events(Gz(c, [])) == Events(c) <==> c.Plain? || Events(c) == []
  {
    if c.Plain? {
      ProbeHidesNoEvent(c.text);
    }
  }
}
