/** The writer's background task: from the queue to the disk, and a clean stop. */
module WriterTask {
  import opened Bytes
  import opened Json
  import opened GzipReader
  import opened CaptureLog
  import opened Options
  import opened Sequences
  import opened Sink
  import opened WalWriter

  /** What happens around one turn of the main loop: puts that arrive, the clock, the age check. */
  datatype Turn = Turn(puts: seq<bytes>, ts: int, aged: bool)

  // ---------- outcomes ----------

  lemma {:induction false} OutcomeSnoc(outcomes: seq<Attempt>, o: Attempt)
    ensures RecordsOf(outcomes + [o]) == RecordsOf(outcomes) + [o.record]
    ensures Succeeded(outcomes + [o]) == Succeeded(outcomes) + (if o.ok then [o.record] else [])
    ensures Failures(outcomes + [o]) == Failures(outcomes) + (if o.ok then 0 else 1)
  {
    LastOfAppend(outcomes, o);
  }

  /** Each accepted event was either written or failed; none is lost or counted twice. */
  lemma {:induction false} OutcomesPartition(outcomes: seq<Attempt>)
    ensures |RecordsOf(outcomes)| == |outcomes| == |Succeeded(outcomes)| + Failures(outcomes)
    ensures IsSubsequence(Succeeded(outcomes), RecordsOf(outcomes))
    decreases |outcomes|
  {
    if outcomes != [] {
      var pre, o := outcomes[..|outcomes| - 1], outcomes[|outcomes| - 1];
      OutcomesPartition(pre);
      LastOfAppend(RecordsOf(pre), o.record);
      LastOfAppend(Succeeded(pre), o.record);
      assert !o.ok ==> Succeeded(outcomes) == Succeeded(pre);
    }
  }

  /** The writes that reached the file: all outcomes but some failed ones, whose file could not be opened. */
  ghost predicate Thinned(tried: seq<Attempt>, outcomes: seq<Attempt>) {
    if outcomes == [] then tried == []
    else
      var o, rest := outcomes[|outcomes| - 1], outcomes[..|outcomes| - 1];
      || (tried != [] && tried[|tried| - 1] == o && Thinned(tried[..|tried| - 1], rest))
      || (!o.ok && Thinned(tried, rest))
  }

  lemma {:induction false} ThinnedSnoc(
    tried: seq<Attempt>, tried': seq<Attempt>, outcomes: seq<Attempt>, r: bytes, ok: bool)
    requires Thinned(tried, outcomes) && Wrote(tried, tried', r, ok)
    ensures Thinned(tried', outcomes + [Attempt(r, ok)])
  {
    LastOfAppend(outcomes, Attempt(r, ok));
    LastOfAppend(tried, Attempt(r, ok));
  }

  lemma {:induction false} ThinnedSelf(tried: seq<Attempt>)
    ensures Thinned(tried, tried)
    decreases |tried|
  {
    if tried != [] {
      ThinnedSelf(tried[..|tried| - 1]);
    }
  }

  /** One more outcome behind those of `earlier` writes. */
  lemma {:induction false} ThinnedNext(
    earlier: seq<Attempt>, tried: seq<Attempt>, tried': seq<Attempt>, outcomes: seq<Attempt>, r: bytes, ok: bool)
    requires Thinned(tried, earlier + outcomes) && Wrote(tried, tried', r, ok)
    ensures Thinned(tried', earlier + (outcomes + [Attempt(r, ok)]))
  {
    ThinnedSnoc(tried, tried', earlier + outcomes, r, ok);
    Regroup(earlier, outcomes, [Attempt(r, ok)]);
  }

  lemma {:induction false} ThinnedSucceeded(tried: seq<Attempt>, outcomes: seq<Attempt>)
    requires Thinned(tried, outcomes)
    ensures Succeeded(tried) == Succeeded(outcomes)
    decreases |outcomes|
  {
    if outcomes != [] {
      var o, rest := outcomes[|outcomes| - 1], outcomes[..|outcomes| - 1];
      if tried != [] && tried[|tried| - 1] == o && Thinned(tried[..|tried| - 1], rest) {
        ThinnedSucceeded(tried[..|tried| - 1], rest);
      } else {
        ThinnedSucceeded(tried, rest);
        assert Succeeded(outcomes) == Succeeded(rest);
      }
    }
  }

  /** What is read, told by the writes that reached the file, is told by the outcomes as well. */
  lemma {:induction false} KeptThinned(events: seq<bytes>, tried: seq<Attempt>, outcomes: seq<Attempt>)
    requires Kept(events, tried) && Thinned(tried, outcomes)
    ensures Kept(events, outcomes)
    decreases |outcomes|
  {
    if outcomes != [] {
      var o, rest := outcomes[|outcomes| - 1], outcomes[..|outcomes| - 1];
      if tried != [] && tried[|tried| - 1] == o && Thinned(tried[..|tried| - 1], rest) {
        var before := tried[..|tried| - 1];
        if events != [] && events[|events| - 1] == o.record && Kept(events[..|events| - 1], before) {
          KeptThinned(events[..|events| - 1], before, rest);
        } else {
          KeptThinned(events, before, rest);
        }
      } else {
        KeptThinned(events, tried, rest);
      }
    }
  }

  ghost predicate AllRecords(s: seq<bytes>) {
    forall i :: 0 <= i < |s| ==> IsRecord(s[i])
  }

  // ---------- what the queue admits ----------

  /** The queue as the producers see it: its length, every event it ever accepted, every put offered to it. */
  datatype Queue = Queue(queued: nat, accepted: seq<bytes>, attempts: nat)

  /** How many of `offered` puts in a row find room. */
  function Room(max: nat, queued: nat, offered: nat): (n: nat)
    ensures n <= offered && (queued <= max ==> queued + n <= max && (n < offered ==> queued + n == max))
  {
    if queued + offered <= max then offered else if queued <= max then max - queued else 0
  }

  function Offer(max: nat, q: Queue, puts: seq<bytes>): Queue {
    var n := Room(max, q.queued, |puts|);
    Queue(q.queued + n, q.accepted + puts[..n], q.attempts + |puts|)
  }

  /** A turn admits the puts that find room, then takes one event if there is any. */
  function TurnOf(max: nat, q: Queue, puts: seq<bytes>): Queue {
    var q' := Offer(max, q, puts);
    if q'.queued == 0 then q' else q'.(queued := q'.queued - 1)
  }

  function After(max: nat, q: Queue, turns: seq<Turn>): Queue {
    if turns == [] then q else TurnOf(max, After(max, q, turns[..|turns| - 1]), turns[|turns| - 1].puts)
  }

  lemma {:induction false} AfterNext(max: nat, q: Queue, turns: seq<Turn>, i: nat)
    requires i < |turns|
    ensures After(max, q, turns[..i + 1]) == TurnOf(max, After(max, q, turns[..i]), turns[i].puts)
  {
    NextPrefix(turns, i);
  }

  function Offered(turns: seq<Turn>): seq<bytes> {
    if turns == [] then [] else Offered(turns[..|turns| - 1]) + turns[|turns| - 1].puts
  }

  lemma {:induction false} SubsequenceSnoc(a: seq<bytes>, b: seq<bytes>, x: bytes)
    requires IsSubsequence(a, b)
    ensures IsSubsequence(a, b + [x]) && IsSubsequence(a + [x], b + [x])
  {
    LastOfAppend(b, x);
    LastOfAppend(a, x);
  }

  lemma {:induction false} PrefixWithin(a: seq<bytes>, b: seq<bytes>, p: seq<bytes>, k: nat)
    requires IsSubsequence(a, b) && k <= |p|
    ensures IsSubsequence(a + p[..k], b + p)
    decreases |p|
  {
    if p == [] {
      assert a + p[..k] == a && b + p == b;
    } else {
      var n := |p| - 1;
      var front := p[..n];
      assert p == front + [p[n]];
      Regroup(b, front, [p[n]]);
      if k <= n {
        PrefixWithin(a, b, front, k);
        assert front[..k] == p[..k];
        SubsequenceSnoc(a + p[..k], b + front, p[n]);
      } else {
        PrefixWithin(a, b, front, n);
        assert front[..n] == front && p[..k] == p;
        Regroup(a, front, [p[n]]);
        SubsequenceSnoc(a + front, b + front, p[n]);
      }
    }
  }

  lemma {:induction false} SubsequenceOfSelf(a: seq<bytes>)
    ensures IsSubsequence(a, a)
    decreases |a|
  {
    if a != [] {
      SubsequenceOfSelf(a[..|a| - 1]);
    }
  }

  /** Over any turns: every put is counted, and the accepted events are offered ones, in the order they came. */
  lemma {:induction false} AdmittedInOrder(max: nat, q: Queue, turns: seq<Turn>)
    ensures After(max, q, turns).attempts == q.attempts + |Offered(turns)|
    ensures IsSubsequence(After(max, q, turns).accepted, q.accepted + Offered(turns))
    decreases |turns|
  {
    if turns == [] {
      SubsequenceOfSelf(q.accepted);
      assert q.accepted + [] == q.accepted;
    } else {
      var pre, puts := turns[..|turns| - 1], turns[|turns| - 1].puts;
      var before := After(max, q, pre);
      AdmittedInOrder(max, q, pre);
      PrefixWithin(before.accepted, q.accepted + Offered(pre), puts, Room(max, before.queued, |puts|));
      Regroup(q.accepted, Offered(pre), puts);
    }
  }

  ghost function QueueOf(sink: CaptureSink<bytes>): Queue
    reads sink
  {
    Queue(|sink.queue|, sink.accepted, sink.attempts)
  }

  /** The producers' side of one turn: exactly the puts that find room are accepted, in order. */
  method PutAll(sink: CaptureSink<bytes>, puts: seq<bytes>)
    requires sink.Valid() && !sink.closed && AllRecords(puts) && AllRecords(sink.accepted)
    modifies sink
    ensures sink.Valid() && !sink.closed && AllRecords(sink.accepted) && sink.taken == old(sink.taken)
    ensures QueueOf(sink) == Offer(sink.maxPending, old(QueueOf(sink)), puts)
  {
    var i := 0;
    assert puts[..0] == [] && sink.accepted + [] == sink.accepted;
    while i < |puts|
      invariant 0 <= i <= |puts|
      invariant sink.Valid() && !sink.closed && AllRecords(sink.accepted) && sink.taken == old(sink.taken)
      invariant QueueOf(sink) == Offer(sink.maxPending, old(QueueOf(sink)), puts[..i])
    {
      var ok := sink.TryPut(puts[i]);
      OfferOne(sink.maxPending, old(QueueOf(sink)), puts, i);
      i := i + 1;
    }
    assert puts[..i] == puts;
  }

  lemma {:induction false} OfferOne(max: nat, q: Queue, puts: seq<bytes>, i: nat)
    requires i < |puts| && q.queued <= max
    ensures
      var before, after := Offer(max, q, puts[..i]), Offer(max, q, puts[..i + 1]);
      after == if before.queued < max then Queue(before.queued + 1, before.accepted + [puts[i]], before.attempts + 1)
               else before.(attempts := before.attempts + 1)
  {
    var n := Room(max, q.queued, i);
    assert puts[..i][..n] == puts[..n];
    if n == i && q.queued + n < max {
      NextPrefix(puts, i);
      assert puts[..i + 1][..i + 1] == puts[..i + 1];
      Regroup(q.accepted, puts[..i], [puts[i]]);
    } else {
      assert puts[..i + 1][..n] == puts[..n];
    }
  }

  /** The drain at shutdown: every event is written, without a rotation check in between. */
  method WriteAll(writer: CaptureWALWriter, events: seq<bytes>, done: seq<Attempt>, ghost earlier: seq<Attempt>)
    returns (outcomes: seq<Attempt>)
    requires writer.Valid() && AllRecords(events) && Thinned(writer.log.tried, earlier + done)
    modifies writer
    ensures writer.Valid() && Thinned(writer.log.tried, earlier + outcomes)
    ensures RecordsOf(outcomes) == RecordsOf(done) + events
    ensures writer.writeFailures == old(writer.writeFailures) + Failures(outcomes) - Failures(done)
    ensures writer.log.order == old(writer.log.order)
    ensures old(writer.errors) <= writer.errors && (old(writer.misled) ==> writer.misled)
    ensures writer.errors == old(writer.errors) ==>
      && Failures(outcomes) == Failures(done)
      && (old(writer.isOpen) || events != [] ==> writer.isOpen)
      && (old(writer.isOpen ==> !writer.sizeLost) ==> writer.isOpen ==> !writer.sizeLost)
  {
    outcomes := done;
    var i := 0;
    while i < |events|
      invariant 0 <= i <= |events|
      invariant writer.Valid() && writer.log.order == old(writer.log.order)
      invariant Thinned(writer.log.tried, earlier + outcomes)
      invariant RecordsOf(outcomes) == RecordsOf(done) + events[..i]
      invariant writer.writeFailures == old(writer.writeFailures) + Failures(outcomes) - Failures(done)
      invariant old(writer.errors) <= writer.errors && (old(writer.misled) ==> writer.misled)
      invariant writer.errors == old(writer.errors) ==>
        && Failures(outcomes) == Failures(done)
        && (old(writer.isOpen) || i > 0 ==> writer.isOpen)
        && (old(writer.isOpen ==> !writer.sizeLost) ==> writer.isOpen ==> !writer.sizeLost)
    {
      ghost var before := writer.log.tried;
      var ok := writer.WriteEvent(events[i]);
      ThinnedNext(earlier, before, writer.log.tried, outcomes, events[i], ok);
      OutcomeSnoc(outcomes, Attempt(events[i], ok));
      NextPrefix(events, i);
      Regroup(RecordsOf(done), events[..i], [events[i]]);
      outcomes := outcomes + [Attempt(events[i], ok)];
      i := i + 1;
    }
    assert events[..i] == events;
  }

  /** How things stood when this writer task began. */
  datatype Start = Start(
    taken: seq<bytes>, tried: seq<Attempt>, queue: Queue, picture: Picture,
    writeFailures: nat, errors: nat, misled: bool)

  ghost function StartOf(sink: CaptureSink<bytes>, writer: CaptureWALWriter): Start
    reads sink, writer
  {
    Start(sink.taken, writer.log.tried, QueueOf(sink), PictureOf(writer),
      writer.writeFailures, writer.errors, writer.misled)
  }

  /** Between turns: everything handed out since has an outcome, and the log has the writes that reached the file. */
  ghost predicate InStep(sink: CaptureSink<bytes>, writer: CaptureWALWriter, outcomes: seq<Attempt>, start: Start)
    reads sink, writer
  {
    && sink.Valid() && AllRecords(sink.accepted) && sink.taken == start.taken + RecordsOf(outcomes)
    && writer.Valid() && Thinned(writer.log.tried, start.tried + outcomes)
  }

  /** The queue's side of one turn: the puts that find room, then the oldest event, if there is any. */
  method NextEvent(sink: CaptureSink<bytes>, puts: seq<bytes>) returns (item: Option<bytes>)
    requires sink.Valid() && !sink.closed && AllRecords(puts) && AllRecords(sink.accepted)
    modifies sink
    ensures sink.Valid() && !sink.closed && AllRecords(sink.accepted)
    ensures QueueOf(sink) == TurnOf(sink.maxPending, old(QueueOf(sink)), puts)
    ensures item.Some? <==> |old(sink.queue)| + |puts| > 0
    ensures if item.Some? then sink.taken == old(sink.taken) + [item.value] && IsRecord(item.value)
      else sink.taken == old(sink.taken)
  {
    PutAll(sink, puts);
    if sink.queue == [] {
      return None;
    }
    item := sink.Get();
    assert sink.accepted[|sink.taken| - 1] == item.value;
  }

  /** The clock of the turns from `i` on never goes back, nor behind the latest rotation. */
  ghost predicate ClockFrom(order: seq<Name>, turns: seq<Turn>, i: nat) {
    && (forall j, k :: i <= j < k < |turns| ==> turns[j].ts <= turns[k].ts)
    && (forall j :: i <= j < |turns| && order != [] ==> order[|order| - 1].ts <= turns[j].ts)
  }

  lemma {:induction false} ClockNext(order: seq<Name>, rotated: Option<Name>, turns: seq<Turn>, i: nat)
    requires i < |turns| && ClockFrom(order, turns, i) && (rotated.Some? ==> rotated.value.ts == turns[i].ts)
    ensures var order' := order + (if rotated.Some? then [rotated.value] else []);
      && ClockFrom(order', turns, i + 1)
      && (AllPlain(order') ==> AllPlain(order) && (rotated.Some? ==> rotated.value.Name?))
      && (order != [] ==> order[|order| - 1].ts <= turns[i].ts)
  {
    var order' := order + (if rotated.Some? then [rotated.value] else []);
    if AllPlain(order') {
      assert forall k :: 0 <= k < |order| ==> order[k] == order'[k];
      assert rotated.Some? ==> order'[|order|] == rotated.value;
    }
  }

  /** The thousand candidate names were never all taken. */
  ghost predicate AllPlain(order: seq<Name>) {
    forall i :: 0 <= i < |order| ==> order[i].Name?
  }

  /** What the size and order guarantees speak of. */
  datatype Picture = Picture(order: seq<Name>, files: map<Name, Content>, below: bool, numbered: bool)

  ghost function PictureOf(writer: CaptureWALWriter): Picture
    reads writer
  {
    Picture(writer.log.order, writer.disk.files, writer.BelowLimit(), writer.Numbered())
  }

  /**
   What a turn without I/O errors does: one rotation at most, within the size limit, under a name that follows
   all others.
   */
  ghost predicate TurnKeeps(max: nat, p: Picture, p': Picture, rotated: Option<Name>, ts: int) {
    && (p.below ==> p'.below && ChangedWithin(max, p.files, p'.files))
    && p'.order == p.order + (if rotated.Some? then [rotated.value] else [])
    && (rotated.Some? ==> rotated.value.ts == ts)
    && (p.numbered && (p.order != [] ==> p.order[|p.order| - 1].ts <= ts) && (rotated.Some? ==> rotated.value.Name?) ==>
         p'.numbered)
  }

  /** The same over the first `i` turns. */
  ghost predicate TurnsKeep(max: nat, p0: Picture, p: Picture, turns: seq<Turn>, i: nat) {
    && (p0.below ==> p.below && ChangedWithin(max, p0.files, p.files))
    && (ClockFrom(p0.order, turns, 0) ==>
         ClockFrom(p.order, turns, i) && (p0.numbered && AllPlain(p.order) ==> p.numbered))
  }

  lemma {:induction false} TurnsNext(
    max: nat, p0: Picture, p: Picture, p': Picture, rotated: Option<Name>, turns: seq<Turn>, i: nat)
    requires i < |turns| && TurnsKeep(max, p0, p, turns, i) && TurnKeeps(max, p, p', rotated, turns[i].ts)
    ensures TurnsKeep(max, p0, p', turns, i + 1)
  {
    if p0.below {
      forall n | n in p'.files && (n in p0.files ==> p'.files[n] != p0.files[n]) ensures WithinLimit(max, p'.files[n]) {
        if n in p.files && p'.files[n] == p.files[n] {
          assert WithinLimit(max, p.files[n]);
        }
      }
    }
    if ClockFrom(p0.order, turns, 0) {
      ClockNext(p.order, rotated, turns, i);
    }
  }

  /** The writer's side of one turn: the event gets its outcome, and a rotation that is due is made. */
  method WriteNext(
    writer: CaptureWALWriter, event: bytes, turn: Turn, done: seq<Attempt>, ghost earlier: seq<Attempt>)
    returns (outcomes: seq<Attempt>, failedRotations: nat, rotated: Option<Name>)
    requires writer.Valid() && IsRecord(event) && Thinned(writer.log.tried, earlier + done)
    modifies writer
    ensures writer.Valid() && Thinned(writer.log.tried, earlier + outcomes)
    ensures |outcomes| == |done| + 1 && outcomes[..|done|] == done && RecordsOf(outcomes) == RecordsOf(done) + [event]
    ensures writer.writeFailures == old(writer.writeFailures) + Failures(outcomes) - Failures(done) + failedRotations
    ensures old(writer.errors) <= writer.errors && (old(writer.misled) ==> writer.misled)
    ensures writer.errors == old(writer.errors) ==> Failures(outcomes) == Failures(done) && failedRotations == 0
    ensures Smooth(writer) ==>
      TurnKeeps(writer.maxFileBytes, old(PictureOf(writer)), PictureOf(writer), rotated, turn.ts)
  {
    ghost var before := writer.log.tried;
    var ok, due;
    ok, due, rotated := writer.HandleEvent(event, turn.ts, turn.aged);
    ThinnedNext(earlier, before, writer.log.tried, done, event, ok);
    OutcomeSnoc(done, Attempt(event, ok));
    LastOfAppend(done, Attempt(event, ok));
    outcomes := done + [Attempt(event, ok)];
    failedRotations := if due && rotated.None? then 1 else 0;
  }

  /** One turn of the main loop: the oldest queued event gets its outcome; with nothing queued, `get` keeps waiting. */
  method OneTurn(
    sink: CaptureSink<bytes>, writer: CaptureWALWriter, turn: Turn, done: seq<Attempt>, ghost start: Start)
    returns (outcomes: seq<Attempt>, failedRotations: nat, rotated: Option<Name>)
    requires InStep(sink, writer, done, start) && !sink.closed && AllRecords(turn.puts)
    modifies sink, writer
    ensures InStep(sink, writer, outcomes, start) && !sink.closed
    ensures QueueOf(sink) == TurnOf(sink.maxPending, old(QueueOf(sink)), turn.puts)
    ensures if |old(sink.queue)| + |turn.puts| == 0 then outcomes == done && rotated.None?
      else |outcomes| == |done| + 1 && outcomes[..|done|] == done
    ensures writer.writeFailures == old(writer.writeFailures) + Failures(outcomes) - Failures(done) + failedRotations
    ensures old(writer.errors) <= writer.errors && (old(writer.misled) ==> writer.misled)
    ensures writer.errors == old(writer.errors) ==> Failures(outcomes) == Failures(done) && failedRotations == 0
    ensures Smooth(writer) ==>
      TurnKeeps(writer.maxFileBytes, old(PictureOf(writer)), PictureOf(writer), rotated, turn.ts)
  {
    var item := NextEvent(sink, turn.puts);
    if item.None? {
      return done, 0, None;
    }
    outcomes, failedRotations, rotated := WriteNext(writer, item.value, turn, done, start.tried);
    Regroup(start.taken, RecordsOf(done), [item.value]);
  }

  /** No filesystem call failed, and the writer is not misled. */
  twostate predicate Smooth(writer: CaptureWALWriter)
    reads writer
  {
    !writer.misled && writer.errors == old(writer.errors)
  }

  /**
   After `i` turns: everything handed out has an outcome, the queue is what the turns make it, every failure is
   counted, and without I/O errors the rotated files keep the size limit and the names their order.
   */
  ghost predicate Ran(
    sink: CaptureSink<bytes>, writer: CaptureWALWriter, turns: seq<Turn>, i: nat,
    outcomes: seq<Attempt>, failedRotations: nat, start: Start)
    reads sink, writer
    requires i <= |turns|
  {
    && InStep(sink, writer, outcomes, start) && !sink.closed
    && QueueOf(sink) == After(sink.maxPending, start.queue, turns[..i])
    && writer.writeFailures == start.writeFailures + Failures(outcomes) + failedRotations
    && start.errors <= writer.errors && (start.misled ==> writer.misled)
    && (writer.errors == start.errors ==> Failures(outcomes) == 0 && failedRotations == 0)
    && (!writer.misled && writer.errors == start.errors ==>
          TurnsKeep(writer.maxFileBytes, start.picture, PictureOf(writer), turns, i))
  }

  lemma {:induction false} Began(sink: CaptureSink<bytes>, writer: CaptureWALWriter, turns: seq<Turn>)
    requires sink.Valid() && !sink.closed && AllRecords(sink.accepted) && writer.Valid()
    ensures Ran(sink, writer, turns, 0, [], 0, StartOf(sink, writer))
  {
    ThinnedSelf(writer.log.tried);
    assert writer.log.tried + [] == writer.log.tried && sink.taken + [] == sink.taken;
  }

  /** The next turn of a run. */
  method TakeTurn(
    sink: CaptureSink<bytes>, writer: CaptureWALWriter, turns: seq<Turn>, i: nat,
    done: seq<Attempt>, failedBefore: nat, ghost start: Start)
    returns (outcomes: seq<Attempt>, failedRotations: nat)
    requires i < |turns| && AllRecords(turns[i].puts) && Ran(sink, writer, turns, i, done, failedBefore, start)
    modifies sink, writer
    ensures Ran(sink, writer, turns, i + 1, outcomes, failedRotations, start)
  {
    var failed, rotated;
    AfterNext(sink.maxPending, start.queue, turns, i);
    ghost var p := PictureOf(writer);
    outcomes, failed, rotated := OneTurn(sink, writer, turns[i], done, start);
    if !writer.misled && writer.errors == start.errors {
      TurnsNext(writer.maxFileBytes, start.picture, p, PictureOf(writer), rotated, turns, i);
    }
    failedRotations := failedBefore + failed;
  }

  /** The main loop. */
  method RunTurns(sink: CaptureSink<bytes>, writer: CaptureWALWriter, turns: seq<Turn>, ghost start: Start)
    returns (outcomes: seq<Attempt>, failedRotations: nat)
    requires sink.Valid() && !sink.closed && AllRecords(sink.accepted)
    requires writer.Valid() && start == StartOf(sink, writer)
    requires forall i :: 0 <= i < |turns| ==> AllRecords(turns[i].puts)
    modifies sink, writer
    ensures Ran(sink, writer, turns, |turns|, outcomes, failedRotations, start)
  {
    outcomes, failedRotations := [], 0;
    Began(sink, writer, turns);
    var i := 0;
    ghost var ran := Ran(sink, writer, turns, i, outcomes, failedRotations, start);
    while i < |turns|
      invariant 0 <= i <= |turns|
      invariant ran && (ran <==> Ran(sink, writer, turns, i, outcomes, failedRotations, start))
    {
      outcomes, failedRotations := TakeTurn(sink, writer, turns, i, outcomes, failedRotations, start);
      i := i + 1;
      ran := Ran(sink, writer, turns, i, outcomes, failedRotations, start);
    }
  }

  /** The queue side of stop(): puts may still arrive up to the close; the sentinel may be read before the drain. */
  method CloseAndDrain(sink: CaptureSink<bytes>, puts: seq<bytes>, sentinelFirst: bool) returns (remaining: seq<bytes>)
    requires sink.Valid() && !sink.closed && AllRecords(sink.accepted) && AllRecords(puts)
    modifies sink
    ensures sink.Valid() && sink.closed && sink.queue == [] && AllRecords(sink.accepted) && AllRecords(remaining)
    ensures var q := Offer(sink.maxPending, old(QueueOf(sink)), puts);
      sink.accepted == q.accepted && sink.attempts == q.attempts
    ensures sink.taken == sink.accepted == old(sink.taken) + remaining
  {
    PutAll(sink, puts);
    sink.Close();
    if sentinelFirst && sink.queue != [] && sink.queue[0].None? {
      var none := sink.Get();
    }
    remaining := sink.DrainRemaining();
    RecordsAfter(old(sink.taken), remaining);
  }

  lemma {:induction false} RecordsAfter(front: seq<bytes>, rest: seq<bytes>)
    requires AllRecords(front + rest)
    ensures AllRecords(rest)
  {
    forall k | 0 <= k < |rest| ensures IsRecord(rest[k]) {
      assert rest[k] == (front + rest)[|front| + k];
    }
  }

  /** The file that was open is rotated if that is due, and closed. */
  method FinishFile(writer: CaptureWALWriter, last: Turn) returns (failedRotations: nat)
    requires writer.Valid()
    modifies writer
    ensures writer.Valid() && !writer.isOpen && writer.log.tried == old(writer.log.tried)
    ensures writer.writeFailures == old(writer.writeFailures) + failedRotations
    ensures old(writer.errors) <= writer.errors && (old(writer.misled) ==> writer.misled)
    ensures writer.errors == old(writer.errors) ==> failedRotations == 0
    ensures Smooth(writer) && old(writer.isOpen && !writer.sizeLost) ==>
      || writer.disk.active.None? || ActiveText(writer.disk) == []
      || (!last.aged && |ActiveText(writer.disk)| < writer.maxFileBytes)
  {
    failedRotations := 0;
    if writer.NeedsRotation(last.aged) {
      var rotated := writer.RotateFile(last.ts);
      failedRotations := if rotated.None? then 1 else 0;
    }
    writer.CloseActiveFile();
  }

  /** The writer side of stop(): the drained events, then the final rotation. */
  method Stop(sink: CaptureSink<bytes>, writer: CaptureWALWriter, last: Turn, sentinelFirst: bool,
              done: seq<Attempt>, ghost start: Start)
    returns (outcomes: seq<Attempt>, failedRotations: nat)
    requires InStep(sink, writer, done, start) && !sink.closed && AllRecords(last.puts)
    modifies sink, writer
    ensures InStep(sink, writer, outcomes, start) && sink.closed && sink.queue == [] && sink.taken == sink.accepted
    ensures var q := Offer(sink.maxPending, old(QueueOf(sink)), last.puts);
      sink.accepted == q.accepted && sink.attempts == q.attempts
    ensures writer.writeFailures == old(writer.writeFailures) + Failures(outcomes) - Failures(done) + failedRotations
    ensures old(writer.errors) <= writer.errors && (old(writer.misled) ==> writer.misled)
    ensures writer.errors == old(writer.errors) ==> Failures(outcomes) == Failures(done) && failedRotations == 0
    ensures Smooth(writer) && old(writer.isOpen ==> !writer.sizeLost) && (old(writer.isOpen) || |outcomes| > |done|) ==>
      || writer.disk.active.None? || ActiveText(writer.disk) == []
      || (!last.aged && |ActiveText(writer.disk)| < writer.maxFileBytes)
  {
    var remaining := CloseAndDrain(sink, last.puts, sentinelFirst);
    outcomes := WriteAll(writer, remaining, done, start.tried);
    Regroup(start.taken, RecordsOf(done), remaining);
    OutcomesPartition(outcomes);
    OutcomesPartition(done);
    failedRotations := FinishFile(writer, last);
  }

  /** The turns, then the stop. */
  method TurnsThenStop(
    sink: CaptureSink<bytes>, writer: CaptureWALWriter, turns: seq<Turn>, sentinelFirst: bool, last: Turn,
    ghost start: Start)
    returns (outcomes: seq<Attempt>, failedRotations: nat)
    requires sink.Valid() && !sink.closed && AllRecords(sink.accepted)
    requires writer.Valid() && start == StartOf(sink, writer)
    requires forall i :: 0 <= i < |turns| ==> AllRecords(turns[i].puts)
    requires AllRecords(last.puts)
    modifies sink, writer
    ensures InStep(sink, writer, outcomes, start) && sink.closed && sink.queue == [] && sink.taken == sink.accepted
    ensures var q := After(sink.maxPending, start.queue, turns + [last]);
      sink.accepted == q.accepted && sink.attempts == q.attempts
    ensures writer.writeFailures == start.writeFailures + Failures(outcomes) + failedRotations
    ensures writer.errors == start.errors ==> Failures(outcomes) == 0 && failedRotations == 0
  {
    outcomes, failedRotations := RunTurns(sink, writer, turns, start);
    assert turns[..|turns|] == turns;
    LastOfAppend(turns, last);
    var failed;
    outcomes, failed := Stop(sink, writer, last, sentinelFirst, outcomes, start);
    failedRotations := failedRotations + failed;
  }

  /** What a writer's log tells of the attempts it thins out. */
  lemma {:induction false} ThinnedIsRead(writer: CaptureWALWriter, all: seq<Attempt>)
    requires writer.Valid() && Thinned(writer.log.tried, all)
    ensures Succeeded(writer.log.tried) == Succeeded(all)
    ensures !writer.misled ==>
      && Kept(ReadEvents(writer.log), all)
      && IsSubsequence(Succeeded(all), ReadEvents(writer.log))
      && IsSubsequence(ReadEvents(writer.log), RecordsOf(all))
  {
    ThinnedSucceeded(writer.log.tried, all);
    if !writer.misled {
      writer.LogIsRead();
      KeptThinned(ReadEvents(writer.log), writer.log.tried, all);
      KeptBetween(ReadEvents(writer.log), all);
    }
  }

  /**
   The whole life of a writer task, on any directory and any open queue: any number of turns, then a stop.  The
   accepted events are exactly the puts that find room, in order, and those handed out since are exactly the
   outcomes; every failure is counted, next to the failed rotations; and what can be read back are the earlier
   attempts and the accepted events in order, only failed ones missing.
   */
  method Run(
    sink: CaptureSink<bytes>, writer: CaptureWALWriter, turns: seq<Turn>, sentinelFirst: bool, last: Turn)
    returns (outcomes: seq<Attempt>, failedRotations: nat)
    requires sink.Valid() && !sink.closed && AllRecords(sink.accepted)
    requires writer.Valid()
    requires forall i :: 0 <= i < |turns| ==> AllRecords(turns[i].puts)
    requires AllRecords(last.puts)
    modifies sink, writer
    ensures sink.Valid() && sink.closed && sink.queue == []
    ensures sink.attempts == old(sink.attempts) + |Offered(turns + [last])| == |sink.accepted| + sink.eventsDropped
    ensures sink.accepted == After(sink.maxPending, old(QueueOf(sink)), turns + [last]).accepted
    ensures IsSubsequence(sink.accepted, old(sink.accepted) + Offered(turns + [last]))
    ensures old(sink.taken) + RecordsOf(outcomes) == sink.accepted == sink.taken
    ensures |sink.accepted| - |old(sink.taken)| == |Succeeded(outcomes)| + Failures(outcomes)
    ensures writer.Valid() && Succeeded(writer.log.tried) == Succeeded(old(writer.log.tried) + outcomes)
    ensures writer.writeFailures == old(writer.writeFailures) + Failures(outcomes) + failedRotations
    ensures writer.errors == old(writer.errors) ==> Failures(outcomes) == 0 && failedRotations == 0
    ensures !writer.misled ==>
      var all := old(writer.log.tried) + outcomes;
      && Kept(ReadEvents(writer.log), all)
      && IsSubsequence(Succeeded(all), ReadEvents(writer.log))
      && IsSubsequence(ReadEvents(writer.log), RecordsOf(all))
  {
    ghost var start := StartOf(sink, writer);
    outcomes, failedRotations := TurnsThenStop(sink, writer, turns, sentinelFirst, last, start);
    AdmittedInOrder(sink.maxPending, start.queue, turns + [last]);
    OutcomesPartition(outcomes);
    ThinnedIsRead(writer, start.tried + outcomes);
  }
}
