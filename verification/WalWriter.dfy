/**
 The writer itself, in its own form: a class whose methods update fields and call the filesystem.
 Which calls succeed is an input, so each contract covers every combination of I/O errors.  The ghost
 `trace` records the filesystem actions taken, and `log` is the state the action system of module
 CaptureLog reaches by them.
 */
module WalWriter {
  import opened Bytes
  import opened Json
  import opened GzipReader
  import opened CaptureLog
  import opened Options
  import opened Sequences
  import opened RotationOrder

  class CaptureWALWriter {
    const maxFileBytes: nat
    const pid: nat
    /** Whether the k-th filesystem call of this writer succeeds. */
    const succeeds: nat -> bool

    var disk: Disk
    var isOpen: bool       // _active_fd and _active_file are set and cleared together
    var activeSize: nat
    var stateNum: nat      // _state["rotation_seq"], mirrored by _rotation_seq
    var bytesWritten: nat
    var filesWritten: nat
    var writeFailures: nat
    var filesRotated: nat

    ghost var trace: seq<Step>
    ghost var log: State
    /** How many filesystem calls were made, and what went wrong so far: failed calls and clobbered files. */
    var calls: nat
    ghost var clobbers: nat
    ghost var errors: nat
    /**
     A swallowed error took effect: a record was allowed behind a torn tail, a compressed file was taken
     for plain, or all thousand names were taken and the fallback existed.
     */
    ghost var misled: bool
    /** The last stat after opening failed, so the size counter started at zero. */
    ghost var sizeLost: bool

    /** How many of the first `n` calls fail. */
    ghost function Faults(n: nat): nat {
      if n == 0 then 0 else Faults(n - 1) + (if succeeds(n - 1) then 0 else 1)
    }

    ghost predicate Tracked()
      reads `trace, `log, `disk, `misled, `calls, `clobbers, `errors
    {
      && errors == Faults(calls) + clobbers
      && Exec(trace, false) == Some(log) && log.disk == disk
      && (!misled ==> Exec(trace, true) == Some(log))
    }

    ghost predicate Valid()
      reads this
    {
      && Tracked()
      && (isOpen ==> disk.active.Some?)
      && (isOpen && !misled ==> AtLineStart(disk) && disk.synced == |ActiveText(disk)|)
      && (isOpen && !misled ==> SizeOk())
    }

    /** The size counter is the file's length, unless the stat failed; then it is a lower bound. */
    ghost predicate SizeOk()
      reads this
    {
      activeSize <= |ActiveText(disk)| && (!sizeLost ==> activeSize == |ActiveText(disk)|)
    }

    /** Nothing was acknowledged or torn, and unless misled the log reads the same as before. */
    twostate predicate Quiet()
      reads this
    {
      && log.tried == old(log.tried)
      && errors >= old(errors) && (old(misled) ==> misled) && (misled ==> old(misled) || errors > old(errors))
      && (!misled ==> ReadEvents(log) == ReadEvents(old(log)))
    }

    constructor (maxFileBytes: nat, pid: nat, succeeds: nat -> bool)
      ensures Valid() && log == INIT && !isOpen && !misled && trace == []
      ensures this.maxFileBytes == maxFileBytes && this.pid == pid && this.succeeds == succeeds
    {
      this.maxFileBytes, this.pid, this.succeeds := maxFileBytes, pid, succeeds;
      disk, isOpen, activeSize, stateNum := Disk(None, 0, map[], {}, map[], None), false, 0, 0;
      bytesWritten, filesWritten, writeFailures, filesRotated := 0, 0, 0, 0;
      trace, log, calls, clobbers, errors, misled, sizeLost := [], INIT, 0, 0, 0, false, false;
    }

    /** The rotation order is the numeric order of the names, and the counter is the saved number. */
    ghost predicate Numbered()
      reads this
    {
      InOrder(log) && stateNum == SavedNum(disk)
    }

    /** The clock has not gone back behind the latest rotation. */
    ghost predicate OnTime(ts: int)
      reads this
    {
      log.order != [] ==> log.order[|log.order| - 1].ts <= ts
    }

    // ---------- one filesystem action ----------

    /** The next filesystem call: it does its work, or fails and is counted. */
    method Call() returns (ok: bool)
      requires Tracked()
      modifies `calls, `errors
      ensures Tracked() && ok == succeeds(old(calls)) && calls == old(calls) + 1
      ensures errors == old(errors) + (if ok then 0 else 1)
    {
      ok := succeeds(calls);
      calls := calls + 1;
      errors := errors + (if ok then 0 else 1);
    }

    method Act(e: Step)
      requires Tracked() && Enabled(disk, e) && (misled || Sound(disk, log.order, e))
      modifies `disk, `trace, `log
      ensures Tracked() && log == Apply(old(log), e) && disk == ApplyDisk(old(disk), e)
      ensures trace == old(trace) + [e]
      ensures !misled && !OnActive(e) ==> ReadEvents(log) == ReadEvents(old(log))
    {
      if !misled && !OnActive(e) {
        RotationStepsInvisible(trace, e);
      }
      ExecSnoc(trace, log, e, false);
      if !misled {
        ExecSnoc(trace, log, e, true);
      }
      disk := ApplyDisk(disk, e);
      trace, log := trace + [e], Apply(log, e);
    }

    // The calls the writer makes, each stated by what it changes.

    method Create()
      requires Tracked() && disk.active.None?
      modifies `disk, `trace, `log
      ensures Tracked() && disk == old(disk).(active := Some(Plain([])), synced := 0)
      ensures log.tried == old(log.tried) && log.order == old(log.order)
      ensures !misled ==> ReadEvents(log) == ReadEvents(old(log))
    {
      Act(Step.Create);
    }

    method AppendNewline(synced: bool)
      requires Tracked() && disk.active.Some?
      requires misled ==> disk.active.value.Plain? ==> Tail(disk.active.value.text) != []
      requires !misled ==> disk.active.value.Plain? && Tail(disk.active.value.text) != []
      modifies `disk, `trace, `log
      ensures Tracked() && disk.active == Some(Append(old(disk.active.value), [NL]))
      ensures disk == old(disk).(active := disk.active, synced := disk.synced)
      ensures log.tried == old(log.tried) && log.order == old(log.order)
    {
      Act(Terminate(synced));
    }

    method AppendRecord(r: bytes)
      requires Tracked() && disk.active.Some? && IsRecord(r) && (!misled ==> AtLineStart(disk))
      modifies `disk, `trace, `log
      ensures Tracked()
      ensures var c := Append(old(disk.active.value), r + [NL]);
        disk == old(disk).(active := Some(c), synced := Size(c))
      ensures log.tried == old(log.tried) + [Attempt(r, true)] && log.order == old(log.order)
    {
      Act(Write(r));
    }

    method AppendTorn(r: bytes, k: nat)
      requires Tracked() && disk.active.Some? && IsRecord(r) && k <= |r| + 1 && (!misled ==> AtLineStart(disk))
      modifies `disk, `trace, `log
      ensures Tracked() && disk == old(disk).(active := disk.active, synced := disk.synced)
      ensures log.tried == old(log.tried) + [Attempt(r, false)] && log.order == old(log.order)
    {
      Act(FailWrite(r, k));
    }

    method RenameActive(n: Name)
      requires Tracked() && disk.active.Some?
      requires !misled ==> AtLineStart(disk) && disk.synced == |ActiveText(disk)| && n !in disk.files
      modifies `disk, `trace, `log
      ensures Tracked() && Quiet() && log.order == old(log.order) + [n]
      ensures disk == old(disk).(active := None, synced := 0, files := old(disk).files[n := old(disk).active.value])
    {
      Act(Rename(n));
    }

    method CreateTemp(n: Name)
      requires Tracked() && n in disk.files
      modifies `disk, `trace, `log
      ensures Tracked() && Quiet() && log.order == old(log.order) && disk == old(disk).(temps := old(disk).temps + {n})
    {
      Act(MakeTemp(n));
    }

    method UnlinkTemp(n: Name)
      requires Tracked()
      modifies `disk, `trace, `log
      ensures Tracked() && Quiet() && log.order == old(log.order) && disk == old(disk).(temps := old(disk).temps - {n})
    {
      Act(DropTemp(n));
    }

    method ReplaceWithGzip(n: Name)
      requires Tracked() && n in disk.temps && n in disk.files && (!misled ==> disk.files[n].Plain?)
      modifies `disk, `trace, `log
      ensures Tracked() && Quiet() && log.order == old(log.order)
      ensures disk == old(disk).(files := old(disk).files[n := Gz(old(disk).files[n], [])],
        temps := old(disk).temps - {n})
    {
      Act(Compress(n));
    }

    method MoveBack(n: Name)
      requires Tracked() && n in disk.files && disk.active.None?
      requires !misled ==> disk.files[n].Plain? && log.order != [] && log.order[|log.order| - 1] == n
      modifies `disk, `trace, `log
      ensures Tracked() && Quiet()
      ensures var c := old(disk).files[n];
        disk == old(disk).(active := Some(c), synced := Size(c), files := old(disk).files - {n})
    {
      Act(Restore(n));
    }

    method CreateSidecar(n: Name)
      requires Tracked() && n in disk.files && (!misled ==> disk.files[n].Gz?)
      modifies `disk, `trace, `log
      ensures Tracked() && Quiet() && log.order == old(log.order)
      ensures disk == old(disk).(sidecars := old(disk).sidecars[n := Partial])
    {
      Act(Step.OpenSidecar(n));
    }

    method FillChecksum(n: Name)
      requires Tracked() && n in disk.files && n in disk.sidecars && (!misled ==> disk.files[n].Gz?)
      modifies `disk, `trace, `log
      ensures Tracked() && Quiet() && log.order == old(log.order)
      ensures disk == old(disk).(sidecars := old(disk).sidecars[n := Sum(old(disk).files[n])])
    {
      Act(FillSidecar(n));
    }

    method ReplaceState()
      requires Tracked()
      modifies `disk, `trace, `log
      ensures Tracked() && Quiet() && log.order == old(log.order)
      ensures disk == old(disk).(saved := Some(stateNum))
    {
      Act(Step.SaveState(stateNum));
    }

    /** What every state of a run that was not misled looks like. */
    ghost method Recall() returns (hist: seq<Entry>)
      requires Tracked()
      ensures !misled ==> Explains(log, hist)
    {
      if !misled {
        hist := RunExplained(trace);
      } else {
        hist := [];
      }
    }

    // ---------- the active file ----------

    /** The torn tail gets its newline, unless the append fails silently. */
    method CloseTornLine()
      requires Tracked() && disk.active.Some? && (disk.active.value.Plain? ==> Tail(disk.active.value.text) != [])
      requires !misled ==> disk.active.value.Plain?
      modifies `disk, `trace, `log, `errors, `calls, `misled
      ensures Tracked() && disk.active.Some? && log.tried == old(log.tried) && log.order == old(log.order)
      ensures disk == old(disk).(active := disk.active, synced := disk.synced)
      ensures errors >= old(errors) && (old(misled) ==> misled) && (misled ==> old(misled) || errors > old(errors))
      ensures !misled ==> AtLineStart(disk) && disk.active == Some(Plain(ActiveText(old(disk)) + [NL]))
    {
      var appended := Call();
      if !appended {
        misled := true;
        return;
      }
      var synced := Call();
      if disk.active.value.Plain? {
        AppendLine(disk.active.value.text, []);
        assert disk.active.value.text + [] + [NL] == disk.active.value.text + [NL];
      }
      AppendNewline(synced);
    }

    /** The last byte of the active file, as it is on disk; what a compressed file ends with is arbitrary. */
    method EndsTorn() returns (torn: bool)
      requires disk.active.Some?
      ensures disk.active.value.Plain? ==> (torn <==> Tail(disk.active.value.text) != [])
    {
      torn := *;
      if disk.active.value.Plain? {
        torn := disk.active.value.text != [] && disk.active.value.text[|disk.active.value.text| - 1] != NL;
        TailVsLastByte(disk.active.value.text);
      }
    }

    method TerminatePartialLine()
      requires Tracked() && disk.active.Some?
      modifies `disk, `trace, `log, `errors, `calls, `misled
      ensures Tracked() && disk.active.Some?
      ensures !misled ==> AtLineStart(disk)
      ensures log.tried == old(log.tried) && log.order == old(log.order)
      ensures disk == old(disk).(active := disk.active, synced := disk.synced)
      ensures errors >= old(errors) && (old(misled) ==> misled) && (misled ==> old(misled) || errors > old(errors))
      ensures !old(misled) && AtLineStart(old(disk)) ==> !misled && disk == old(disk)
      ensures !misled && errors == old(errors) ==> disk.active == Some(Plain(Opened(ActiveText(old(disk)), true)))
    {
      ghost var hist := Recall();
      var torn := EndsTorn();
      var readable := Call();
      if !readable {
        // stat or read failed: swallowed
        misled := misled || torn;
        return;
      }
      if torn {
        CloseTornLine();
      }
    }

    /** The active file is at rest: absent, or at a line start and fsynced. */
    ghost predicate AtRest(d: Disk) {
      d.active.None? || (AtLineStart(d) && d.synced == |ActiveText(d)|)
    }

    /** The torn tail of a file that is there is closed. */
    method ReadyActive()
      requires Tracked()
      modifies `disk, `trace, `log, `errors, `calls, `misled
      ensures Tracked() && (old(disk).active.None? ==> disk == old(disk))
      ensures old(disk).active.Some? ==> disk.active.Some?
      ensures !misled && disk.active.Some? ==> AtLineStart(disk)
      ensures log.tried == old(log.tried) && log.order == old(log.order)
      ensures disk == old(disk).(active := disk.active, synced := disk.synced)
      ensures errors >= old(errors) && (old(misled) ==> misled) && (misled ==> old(misled) || errors > old(errors))
      ensures !old(misled) && AtRest(old(disk)) ==>
        && !misled && ReadEvents(log) == ReadEvents(old(log))
        && disk.synced == |ActiveText(disk)| && ActiveText(disk) == ActiveText(old(disk))
      ensures !misled && errors == old(errors) ==> ActiveText(disk) == Opened(ActiveText(old(disk)), true)
    {
      ghost var before := Recall();
      if disk.active.Some? {
        TerminatePartialLine();
      }
    }

    /** The file is opened for appending; a missing one is created, at the latest when the open succeeds. */
    method OpenFd() returns (fdOk: bool)
      requires Tracked()
      modifies `disk, `trace, `log, `errors, `calls
      ensures Tracked() && (fdOk ==> disk.active.Some?)
      ensures old(disk).active.Some? ==> disk == old(disk) && log == old(log)
      ensures disk == old(disk) || disk == old(disk).(active := Some(Plain([])), synced := 0)
      ensures log.tried == old(log.tried) && log.order == old(log.order)
      ensures !misled ==> ReadEvents(log) == ReadEvents(old(log))
      ensures errors == old(errors) + (if fdOk then 0 else 1)
    {
      var created: bool := *;
      fdOk := Call();
      if disk.active.None? && (fdOk || created) {
        Create();
      }
    }

    method OpenActiveFile()
      requires Tracked() && !isOpen
      modifies `disk, `trace, `log, `errors, `calls, `misled, `isOpen, `activeSize, `sizeLost, `writeFailures
      ensures Tracked()
      ensures isOpen ==> disk.active.Some? && (!misled ==> AtLineStart(disk) && SizeOk())
      ensures writeFailures == old(writeFailures) + (if isOpen then 0 else 1)
      ensures log.tried == old(log.tried) && log.order == old(log.order)
      ensures disk == old(disk).(active := disk.active, synced := disk.synced)
      ensures errors >= old(errors) && (old(misled) ==> misled) && (misled ==> old(misled) || errors > old(errors))
      ensures !isOpen ==> errors > old(errors)
      ensures errors == old(errors) ==> !sizeLost
      ensures !old(misled) && AtRest(old(disk)) ==>
        && !misled && ReadEvents(log) == ReadEvents(old(log))
        && disk.synced == |ActiveText(disk)| && ActiveText(disk) == ActiveText(old(disk))
      ensures !misled && errors == old(errors) ==> ActiveText(disk) == Opened(ActiveText(old(disk)), true)
    {
      ghost var hist := Recall();
      var inside := Call();  // or the resolved path escapes the capture root
      if inside {
        ReadyActive();
        var fdOk := OpenFd();
        if fdOk {
          StartCounting();
        }
      }
      if !isOpen {
        writeFailures := writeFailures + 1;
      }
    }

    /** The size counter starts at the file's length, or at zero if the stat fails. */
    method StartCounting()
      requires Tracked() && disk.active.Some? && (!misled ==> AtLineStart(disk))
      modifies `errors, `calls, `isOpen, `activeSize, `sizeLost
      ensures Tracked() && isOpen && (!misled ==> SizeOk())
      ensures errors >= old(errors) && (errors == old(errors) ==> !sizeLost)
    {
      var statted := Call();
      isOpen, sizeLost := true, !statted;
      activeSize := if statted then Size(disk.active.value) else 0;
    }

    method CloseActiveFile()
      modifies `isOpen, `activeSize
      ensures !isOpen && activeSize == 0
    {
      isOpen, activeSize := false, 0;
    }

    /** The line reached the disk. */
    method LineWritten(r: bytes)
      requires Tracked() && isOpen && disk.active.Some? && IsRecord(r)
      requires !misled ==> AtLineStart(disk) && SizeOk()
      modifies `disk, `trace, `log, `activeSize, `bytesWritten, `filesWritten
      ensures Valid() && log.tried == old(log.tried) + [Attempt(r, true)]
      ensures !misled ==> ActiveText(disk) == ActiveText(old(disk)) + (r + [NL])
      ensures bytesWritten == old(bytesWritten) + |r| + 1
      ensures log.order == old(log.order) && disk == old(disk).(active := disk.active, synced := disk.synced)
    {
      if disk.active.value.Plain? {
        LineLands(disk.active.value.text, r);
      }
      AppendRecord(r);
      activeSize := activeSize + |r| + 1;
      bytesWritten := bytesWritten + |r| + 1;
      filesWritten := if filesWritten < 1 then 1 else filesWritten;
    }

    /** The guarded part of a write: one line appended, flushed and fsynced, or a failure after any prefix of it. */
    method AppendLineSync(r: bytes) returns (ok: bool)
      requires Tracked() && isOpen && disk.active.Some? && IsRecord(r)
      requires !misled ==> AtLineStart(disk) && SizeOk()
      modifies `disk, `trace, `log, `errors, `calls, `isOpen, `activeSize, `writeFailures, `bytesWritten, `filesWritten
      ensures Valid() && isOpen == ok
      ensures log.tried == old(log.tried) + [Attempt(r, ok)]
      ensures ok && !misled ==> ActiveText(disk) == ActiveText(old(disk)) + (r + [NL])
      ensures writeFailures == old(writeFailures) + (if ok then 0 else 1)
      ensures bytesWritten == old(bytesWritten) + (if ok then |r| + 1 else 0)
      ensures errors == old(errors) + (if ok then 0 else 1)
      ensures log.order == old(log.order) && disk == old(disk).(active := disk.active, synced := disk.synced)
    {
      ok := Call();
      if ok {
        LineWritten(r);
      } else {
        // any prefix of the line may have reached the file
        var k: nat :| k <= |r| + 1;
        AppendTorn(r, k);
        writeFailures := writeFailures + 1;
        CloseActiveFile();
      }
    }

    /** The active text with one more record: behind a closed line, if the file has to be opened first. */
    ghost function Grown(r: bytes): bytes
      reads `isOpen, `disk
    {
      (if isOpen then ActiveText(disk) else Opened(ActiveText(disk), true)) + (r + [NL])
    }

    /**
     Success means the record is acknowledged and the file is open, synced and at a line start; failure
     acknowledges nothing, tried this record at most, closes the file and is counted exactly once.
     */
    method WriteEvent(r: bytes) returns (ok: bool)
      requires Valid() && IsRecord(r)
      modifies `disk, `trace, `log, `errors, `calls, `misled, `isOpen, `activeSize, `sizeLost, `writeFailures,
        `bytesWritten,
        `filesWritten
      ensures Valid() && isOpen == ok
      ensures Wrote(old(log.tried), log.tried, r, ok)
      ensures writeFailures == old(writeFailures) + (if ok then 0 else 1)
      ensures bytesWritten == old(bytesWritten) + (if ok then |r| + 1 else 0)
      ensures log.order == old(log.order) && disk == old(disk).(active := disk.active, synced := disk.synced)
      ensures errors >= old(errors) && (old(misled) ==> misled) && (misled ==> old(misled) || errors > old(errors))
      ensures errors == old(errors) ==> ok && (!old(isOpen) || !old(sizeLost) ==> !sizeLost)
      ensures !misled && errors == old(errors) ==> ActiveText(disk) == old(Grown(r))
    {
      if !isOpen {
        OpenActiveFile();
        if !isOpen {
          return false;
        }
      }
      ok := AppendLineSync(r);
    }

    // ---------- rotation ----------

    /** `_is_gzip_file`: a read error counts as "plain". */
    method ProbeGzip(n: Name) returns (b: bool)
      requires Tracked() && n in disk.files
      modifies `errors, `calls, `misled
      ensures Tracked() && (b ==> IsGzip(disk.files[n]) && (!misled ==> disk.files[n].Gz?))
      ensures !misled || errors == old(errors) ==> b == IsGzip(disk.files[n])
      ensures errors >= old(errors) && (misled <==> old(misled) || (errors > old(errors) && IsGzip(disk.files[n])))
    {
      ghost var hist := Recall();
      var readable := Call();
      if !readable {
        misled := misled || IsGzip(disk.files[n]);
      }
      b := readable && IsGzip(disk.files[n]);
    }

    method NextCompletedPath(ts: int) returns (n: Name, num: nat)
      ensures n == NextName(disk.files.Keys, ts, stateNum, pid)
      ensures num == n.num && (Fresh(ts) ==> n !in disk.files)
    {
      NextNameFresh(disk.files.Keys, ts, stateNum, pid);
      num := stateNum + 1;
      var tries := 0;
      while tries < TRIES
        invariant 0 <= tries <= TRIES && num == stateNum + 1 + tries
        invariant FirstFree(disk.files.Keys, ts, stateNum + 1, TRIES)
          == FirstFree(disk.files.Keys, ts, num, TRIES - tries)
      {
        if Name(ts, num) !in disk.files {
          n := Name(ts, num);
          return;
        }
        num := num + 1;
        tries := tries + 1;
      }
      n := Overflow(ts, num, pid);
    }

    method SaveState()
      requires Tracked()
      modifies `disk, `trace, `log, `errors, `calls
      ensures Tracked() && Quiet() && log.order == old(log.order)
      ensures disk == old(disk).(saved := disk.saved)
      ensures errors == old(errors) ==> disk.saved == Some(stateNum)
    {
      var ok := Call();
      if ok {
        ReplaceState();
      }
    }

    /** Compress to a temporary file, fsync, replace; on any failure the temporary file is unlinked if possible. */
    method CompressAtomically(n: Name) returns (ok: bool)
      requires Tracked() && n in disk.files && (!misled ==> disk.files[n].Plain?)
      modifies `disk, `trace, `log, `errors, `calls
      ensures Tracked() && Quiet() && log.order == old(log.order)
      ensures ok ==> disk == old(disk).(files := old(disk).files[n := Gz(old(disk).files[n], [])],
        temps := old(disk).temps - {n})
      ensures !ok ==> errors > old(errors) && disk == old(disk).(temps := disk.temps)
      ensures ok ==> errors == old(errors)
    {
      ok := Call();
      if !ok {
        return;
      }
      CreateTemp(n);
      ok := Call();
      if ok {
        ok := Call();
      }
      if ok {
        ReplaceWithGzip(n);
        return;
      }
      var unlinkOk := Call();
      if unlinkOk {
        UnlinkTemp(n);
      }
    }

    /** Checksum the file, open the sidecar, fill it, set its mode. */
    method WriteSidecar(n: Name) returns (ok: bool)
      requires Tracked() && n in disk.files && (!misled ==> disk.files[n].Gz?)
      modifies `disk, `trace, `log, `errors, `calls
      ensures Tracked() && Quiet() && log.order == old(log.order) && disk == old(disk).(sidecars := disk.sidecars)
      ensures ok ==> errors == old(errors) && disk.sidecars == old(disk).sidecars[n := Sum(disk.files[n])]
      ensures !ok ==> errors > old(errors)
    {
      ok := Call();
      if ok {
        ok := Call();
      }
      if ok {
        ok := FillNewSidecar(n);
      }
    }

    method FillNewSidecar(n: Name) returns (ok: bool)
      requires Tracked() && n in disk.files && (!misled ==> disk.files[n].Gz?)
      modifies `disk, `trace, `log, `errors, `calls
      ensures Tracked() && Quiet() && log.order == old(log.order) && disk == old(disk).(sidecars := disk.sidecars)
      ensures ok ==> errors == old(errors) && disk.sidecars == old(disk).sidecars[n := Sum(disk.files[n])]
      ensures !ok ==> errors > old(errors)
    {
      CreateSidecar(n);
      ok := Call();
      if ok {
        FillChecksum(n);
        ok := Call();
      }
    }

    /** Data that is still plain goes back to the active slot if that is free. */
    method PutBack(n: Name)
      requires Tracked() && n in disk.files
      requires !misled && disk.active.None? ==>
        disk.files[n].Plain? && log.order != [] && log.order[|log.order| - 1] == n
      modifies `disk, `trace, `log, `errors, `calls
      ensures Tracked() && Quiet()
      ensures
        || (disk == old(disk) && (old(disk).active.None? ==> errors > old(errors)))
        || (old(disk).active.None? && disk == old(disk).(
              active := Some(old(disk).files[n]), synced := Size(old(disk).files[n]), files := old(disk).files - {n}))
    {
      if disk.active.None? {
        var moveOk := Call();
        if moveOk {
          MoveBack(n);
        }
      }
    }

    /** Compression succeeded, so the file stays and gets its sidecar. */
    method KeepCompressed(n: Name)
      requires Tracked() && n in disk.files && (!misled ==> disk.files[n].Gz?)
      modifies `disk, `trace, `log, `errors, `calls, `filesRotated, `filesWritten
      ensures Tracked() && Quiet() && disk == old(disk).(sidecars := disk.sidecars, saved := disk.saved)
      ensures errors == old(errors) ==>
        disk.sidecars == old(disk).sidecars[n := Sum(disk.files[n])] && disk.saved == Some(stateNum)
    {
      var ok := WriteSidecar(n);
      if ok {
        filesRotated, filesWritten := filesRotated + 1, filesWritten + 1;
        SaveState();
      }
    }

    /**
     After a failed rotation: data still plain under the completed name goes back to the active slot,
     compressed data stays and gets its sidecar.
     */
    method RecoverFailedRotation(n: Name)
      requires Tracked() && !isOpen
      requires !misled ==> (n in disk.files ==> disk.active.None? && log.order != [] && log.order[|log.order| - 1] == n)
      modifies `disk, `trace, `log, `errors, `calls, `misled, `filesRotated, `filesWritten
      ensures Tracked() && Quiet()
      ensures !misled ==>
        || (disk.active == old(disk.active) && disk.synced == old(disk.synced))
        || (n in old(disk.files) && disk.active == Some(old(disk.files[n])) && disk.active.value.Plain? &&
             disk.synced == Size(disk.active.value))
      ensures misled && !old(misled) ==>
        n in old(disk).files && IsGzip(old(disk).files[n]) && errors > old(errors)
      ensures errors == old(errors) ==> Recovered(old(disk), disk, n, stateNum)
    {
      var unlinkOk := Call();
      if unlinkOk {
        UnlinkTemp(n);
      }
      if n in disk.files {
        var gz := ProbeGzip(n);
        if gz {
          KeepCompressed(n);
        } else {
          PutBack(n);
        }
      }
    }

    /** The guarded part of a rotation: rename, compress, sidecar, mode, state. */
    method CompleteRotation(n: Name) returns (done: bool)
      requires Tracked() && !isOpen && disk.active.Some?
      requires !misled ==> AtLineStart(disk) && disk.synced == |ActiveText(disk)|
      modifies `disk, `trace, `log, `errors, `calls, `clobbers, `misled, `filesRotated, `filesWritten
      ensures Tracked() && Quiet()
      ensures done || errors > old(errors)
      ensures done && !misled ==>
        && log.order == old(log.order) + [n] && n !in old(disk).files && disk.active.None?
        && disk.files == old(disk).files[n := Gz(Plain(ActiveText(old(disk))), [])]
        && disk.sidecars == old(disk).sidecars[n := Sum(disk.files[n])]
      ensures done && errors == old(errors) ==> disk.saved == Some(stateNum)
      ensures !misled ==> n !in old(disk).files
      ensures !done && !misled ==> Unfinished(old(disk), disk, n)
      ensures !done && !misled && n in disk.files ==> log.order != [] && log.order[|log.order| - 1] == n
      ensures clobbers == old(clobbers) + (if n in old(disk).files then 1 else 0)
      ensures misled <==> old(misled) || n in old(disk).files
      ensures done ==> filesRotated == old(filesRotated) + 1 && disk.temps == old(disk).temps - {n}
    {
      if n in disk.files {
        // the thousand names are taken and so is the fallback
        errors, clobbers, misled := errors + 1, clobbers + 1, true;
      }
      var renameOk := Call();
      if !renameOk {
        return false;
      }
      RenameActive(n);
      done := FinishRotation(n);
      Replaced(old(disk).files, n, old(disk).active.value);
    }

    /** After the rename: compress, sidecar, mode, state. */
    method FinishRotation(n: Name) returns (done: bool)
      requires Tracked() && n in disk.files && (!misled ==> disk.files[n].Plain?)
      modifies `disk, `trace, `log, `errors, `calls, `filesRotated, `filesWritten
      ensures Tracked() && Quiet() && log.order == old(log.order) && (done || errors > old(errors))
      ensures disk.active == old(disk).active && disk.synced == old(disk).synced
      ensures disk.files == old(disk).files || disk.files == old(disk).files[n := Gz(old(disk).files[n], [])]
      ensures done ==> disk.files == old(disk).files[n := Gz(old(disk).files[n], [])]
      ensures done ==> disk.sidecars == old(disk).sidecars[n := Sum(disk.files[n])]
      ensures done ==> disk.temps == old(disk).temps - {n}
      ensures done && errors == old(errors) ==> disk.saved == Some(stateNum)
      ensures done ==> filesRotated == old(filesRotated) + 1
    {
      done := CompressAtomically(n);
      if done {
        done := WriteSidecar(n);
      }
      if done {
        done := Call();
      }
      if !done {
        return;
      }
      filesRotated, filesWritten := filesRotated + 1, filesWritten + 1;
      SaveState();
    }

    /** The rotation to a chosen name, or its recovery. */
    method RotateTo(n: Name) returns (done: bool)
      requires Tracked() && !isOpen && disk.active.Some?
      requires !misled ==> AtLineStart(disk) && disk.synced == |ActiveText(disk)|
      modifies `disk, `trace, `log, `errors, `calls, `clobbers, `misled, `writeFailures, `filesRotated, `filesWritten
      ensures Tracked() && Quiet()
      ensures writeFailures == old(writeFailures) + (if done then 0 else 1) && (done || errors > old(errors))
      ensures done && !misled ==>
        && log.order == old(log.order) + [n] && n !in old(disk).files && disk.active.None?
        && disk.files == old(disk).files[n := Gz(Plain(ActiveText(old(disk))), [])]
        && disk.sidecars == old(disk).sidecars[n := Sum(disk.files[n])]
      ensures done && errors == old(errors) ==> disk.saved == Some(stateNum)
      ensures !misled ==> disk.active.None? || (AtLineStart(disk) && disk.synced == |ActiveText(disk)|)
      ensures !done && !misled && errors == old(errors) + 1 ==> OneFault(old(disk), disk, n)
      ensures clobbers == old(clobbers) + (if n in old(disk).files then 1 else 0)
      ensures misled && !old(misled) ==> n in old(disk).files || errors >= old(errors) + 2
      ensures done ==> filesRotated == old(filesRotated) + 1 && disk.temps == old(disk).temps - {n}
    {
      ghost var hist := Recall();
      done := CompleteRotation(n);
      if !done {
        ghost var mid := disk;
        writeFailures := writeFailures + 1;
        RecoverFailedRotation(n);
        if !misled && errors == old(errors) + 1 {
          RecoveredFromOne(old(disk), mid, disk, n, stateNum);
        }
      }
    }

    /**
     Rotate the active file.  Whatever fails, the log reads the same afterwards; success means one new
     completed file, compressed, with a matching sidecar, holding exactly the active file's bytes.
     */
    method RotateFile(ts: int) returns (res: Option<Name>)
      requires Valid()
      modifies `disk, `trace, `log, `errors, `calls, `clobbers, `misled
      modifies `isOpen, `activeSize, `stateNum, `writeFailures, `filesRotated, `filesWritten
      ensures Valid() && Quiet() && !isOpen
      ensures res.Some? ==> old(isOpen)
      ensures writeFailures == old(writeFailures) + (if old(isOpen) && res.None? then 1 else 0)
      ensures old(isOpen) && errors == old(errors) ==> res.Some?
      ensures res.Some? && !misled ==>
        && log.order == old(log.order) + [res.value]
        && res.value !in old(disk).files && disk.active.None?
        && res.value == NextName(old(disk).files.Keys, ts, old(stateNum), pid)
        && disk.files == old(disk).files[res.value := Gz(Plain(ActiveText(old(disk))), [])]
        && disk.sidecars == old(disk).sidecars[res.value := Sum(disk.files[res.value])]
      ensures old(isOpen) && res.None? && !misled && errors == old(errors) + 1 ==>
        OneFault(old(disk), disk, NextName(old(disk).files.Keys, ts, old(stateNum), pid))
      ensures clobbers == old(clobbers) || !old(Fresh(ts))
      ensures misled && !old(misled) ==> !old(Fresh(ts)) || errors >= old(errors) + 2
      ensures res.Some? ==> filesRotated == old(filesRotated) + 1 && disk.temps == old(disk).temps - {res.value}
      ensures res.Some? && errors == old(errors) ==> disk.saved == Some(stateNum) && stateNum == res.value.num
      ensures old(isOpen) && !misled ==> disk.active.None? || (AtLineStart(disk) && disk.synced == |ActiveText(disk)|)
      ensures !old(isOpen) ==> disk == old(disk) && log == old(log)
    {
      if !isOpen {
        return None;
      }
      CloseActiveFile();
      var n, num := NextCompletedPath(ts);
      stateNum := num;
      var done := RotateTo(n);
      res := if done then Some(n) else None;
    }

    /** One of the thousand candidate names at `ts` is free. */
    ghost predicate Fresh(ts: int)
      reads this
    {
      exists k :: stateNum < k <= stateNum + TRIES && Name(ts, k) !in disk.files
    }

    /** `aged`: the file has been open for the configured maximum time. */
    predicate NeedsRotation(aged: bool)
      reads this
    {
      isOpen && activeSize != 0 && (activeSize >= maxFileBytes || aged)
    }

    /** The writer starts, or goes on, with less than a full file. */
    ghost predicate BelowLimit()
      reads this
    {
      |ActiveText(disk)| < maxFileBytes && (isOpen ==> !sizeLost)
    }

    /**
     One turn of the main loop: write, then rotate if due.  Without I/O errors every file it rotates has
     fewer plain bytes than the limit plus its last line, counting the newline that closes a torn tail;
     and its name follows all earlier ones.
     */
    method HandleEvent(r: bytes, ts: int, aged: bool) returns (ok: bool, due: bool, rotated: Option<Name>)
      requires Valid() && IsRecord(r)
      modifies this
      ensures Valid()
      ensures Wrote(old(log.tried), log.tried, r, ok)
      ensures writeFailures == old(writeFailures) + (if ok then 0 else 1) + (if due && rotated.None? then 1 else 0)
      ensures rotated.Some? ==> due && ok
      ensures errors >= old(errors) && (old(misled) ==> misled)
      ensures !misled && errors == old(errors) && old(BelowLimit()) ==>
        && BelowLimit()
        && (rotated.Some? ==>
          && rotated.value in disk.files
          && |Text(disk.files[rotated.value])| < maxFileBytes + |r| + 1 + (if old(isOpen) then 0 else 1))
      ensures !misled && errors == old(errors) && old(BelowLimit()) ==>
        ChangedWithin(maxFileBytes, old(disk).files, disk.files)
      ensures !misled && errors == old(errors) && old(isOpen ==> !sizeLost) ==>
        && (due <==> aged || |old(Grown(r))| >= maxFileBytes)
        && (!due ==> isOpen && ActiveText(disk) == old(Grown(r)) && disk.files == old(disk).files)
        && (due ==>
              && rotated.Some? && rotated.value !in old(disk).files && disk.active.None?
              && disk.files == old(disk).files[rotated.value := Gz(Plain(old(Grown(r))), [])])
      ensures errors == old(errors) ==> ok && (due ==> rotated.Some?)
      ensures !misled && errors == old(errors) ==>
        log.order == old(log.order) + (if rotated.Some? then [rotated.value] else [])
      ensures !misled && rotated.Some? ==> rotated.value.ts == ts
      ensures !misled && errors == old(errors) && old(Numbered()) && old(OnTime(ts)) ==>
        (rotated.Some? ==> rotated.value.Name?) ==> Numbered()
    {
      ghost var front := if isOpen then ActiveText(disk) else Opened(ActiveText(disk), true);
      ok := WriteEvent(r);
      StillInOrder(old(log), log);
      due, rotated := RotateIfDue(ts, aged);
      if rotated.Some? {
        OneMoreFile(maxFileBytes, old(disk).files, rotated.value, front, r);
      }
    }

    /** A rotation of an open file keeps the name order. */
    method RotateDue(ts: int) returns (rotated: Option<Name>)
      requires Valid() && isOpen
      modifies this
      ensures Valid() && log.tried == old(log.tried) && !isOpen
      ensures writeFailures == old(writeFailures) + (if rotated.None? then 1 else 0)
      ensures errors >= old(errors) && (old(misled) ==> misled)
      ensures errors == old(errors) ==> rotated.Some?
      ensures errors == old(errors) && !misled ==>
        && rotated.Some? && rotated.value !in old(disk).files && disk.active.None?
        && disk.files == old(disk).files[rotated.value := Gz(Plain(ActiveText(old(disk))), [])]
        && log.order == old(log.order) + [rotated.value]
      ensures !misled && rotated.Some? ==> rotated.value.ts == ts
      ensures !misled && errors == old(errors) && old(Numbered()) && old(OnTime(ts)) ==>
        (rotated.Some? ==> rotated.value.Name?) ==> Numbered()
    {
      rotated := RotateFile(ts);
      RotationInOrder(old(log), log, rotated, ts, pid);
    }

    method RotateIfDue(ts: int, aged: bool) returns (due: bool, rotated: Option<Name>)
      requires Valid()
      modifies this
      ensures Valid() && log.tried == old(log.tried)
      ensures due == old(NeedsRotation(aged)) && (rotated.Some? ==> due)
      ensures writeFailures == old(writeFailures) + (if due && rotated.None? then 1 else 0)
      ensures errors >= old(errors) && (old(misled) ==> misled)
      ensures due && errors == old(errors) ==> rotated.Some?
      ensures !due ==>
        && disk == old(disk) && log == old(log)
        && isOpen == old(isOpen) && activeSize == old(activeSize) && sizeLost == old(sizeLost)
      ensures due && errors == old(errors) && !misled ==>
        && rotated.Some? && rotated.value !in old(disk).files && disk.active.None? && !isOpen
        && disk.files == old(disk).files[rotated.value := Gz(Plain(ActiveText(old(disk))), [])]
        && log.order == old(log.order) + [rotated.value]
      ensures !misled && rotated.Some? ==> rotated.value.ts == ts
      ensures !misled && errors == old(errors) && old(Numbered()) && old(OnTime(ts)) ==>
        (rotated.Some? ==> rotated.value.Name?) ==> Numbered()
    {
      due, rotated := NeedsRotation(aged), None;
      if due {
        rotated := RotateDue(ts);
      }
    }

    /** The administrator's forced rotation: rotate, then reopen.  Without I/O errors a new, empty file is open. */
    method Rotate(ts: int) returns (res: Option<Name>)
      requires Valid()
      modifies this
      ensures Valid() && Quiet()
      ensures !old(isOpen) || old(activeSize) == 0 ==> res.None? && disk == old(disk) && isOpen == old(isOpen)
      ensures !misled && errors == old(errors) && old(isOpen) && old(activeSize) != 0 ==>
        && res.Some? && res.value !in old(disk).files && isOpen && ActiveText(disk) == []
        && disk.files == old(disk).files[res.value := Gz(Plain(ActiveText(old(disk))), [])]
        && disk.sidecars == old(disk).sidecars[res.value := Sum(disk.files[res.value])]
    {
      if !isOpen || activeSize == 0 {
        return None;
      }
      res := RotateFile(ts);
      OpenActiveFile();
    }

    // ---------- crash and restart ----------

    method RemoveTemps()
      requires Tracked()
      modifies `disk, `trace, `log, `errors, `calls
      ensures Tracked() && Quiet() && log.order == old(log.order) && disk == old(disk).(temps := disk.temps)
      ensures errors == old(errors) ==> disk.temps == {}
    {
      var left := disk.temps;
      while left != {}
        invariant Tracked() && Quiet() && log.order == old(log.order)
        invariant disk == old(disk).(temps := disk.temps)
        invariant errors == old(errors) ==> disk.temps == left
        decreases left
      {
        var n :| n in left;
        left := left - {n};
        var ok := Call();
        if ok {
          UnlinkTemp(n);
        }
      }
    }

    /**
     One entry of the sweep: a file still plain under a completed name is compressed and gets its sidecar.
     The file is as it was or compressed, and a compressed one is compressed again only if the probe misread it.
     */
    method SweepEntry(n: Name)
      requires Tracked() && n in disk.files
      modifies `disk, `trace, `log, `errors, `calls, `misled, `filesRotated
      ensures Tracked() && Quiet() && log.order == old(log.order)
      ensures disk == old(disk).(files := disk.files, temps := disk.temps, sidecars := disk.sidecars)
      ensures n in disk.files && disk.files == old(disk.files)[n := disk.files[n]]
      ensures disk.files[n] == old(disk.files[n]) || disk.files[n] == Gz(old(disk.files[n]), [])
      ensures old(IsGzip(disk.files[n])) && disk.files[n] != old(disk.files[n]) ==> misled && errors > old(errors)
      ensures errors == old(errors) ==>
        disk == (if old(IsGzip(disk.files[n])) then old(disk) else old(disk).(
          files := old(disk).files[n := Gz(old(disk).files[n], [])], temps := old(disk).temps - {n},
          sidecars := old(disk).sidecars[n := Sum(Gz(old(disk).files[n], []))]))
    {
      var gz := ProbeGzip(n);
      if !gz {
        var ok := CompressAtomically(n);
        if ok {
          ok := WriteSidecar(n);
        }
        if ok {
          filesRotated := filesRotated + 1;
        }
      }
    }

    /** The idempotent startup sweep: stale temporary files, then files still plain under a completed name. */
    method SweepStartup(listing: seq<Name>)
      requires Tracked() && !isOpen && forall n :: n in disk.files <==> n in listing
      modifies `disk, `trace, `log, `errors, `calls, `misled, `filesRotated
      ensures Tracked() && Quiet()
      ensures disk == old(disk).(files := disk.files, temps := disk.temps, sidecars := disk.sidecars)
      ensures log.order == old(log.order) && disk.files.Keys == old(disk.files.Keys)
      ensures errors == old(errors) ==> disk.temps == {}
      ensures errors == old(errors) ==> forall n :: n in disk.files ==>
        disk.files[n] == if IsGzip(old(disk).files[n]) then old(disk).files[n] else Gz(old(disk).files[n], [])
      ensures errors == old(errors) ==> forall n :: n in disk.files && !IsGzip(old(disk).files[n]) ==>
        n in disk.sidecars && disk.sidecars[n] == Sum(disk.files[n])
    {
      RemoveTemps();
      var i := 0;
      while i < |listing|
        invariant 0 <= i <= |listing|
        invariant Tracked() && Quiet() && log.order == old(log.order)
        invariant disk == old(disk).(files := disk.files, temps := disk.temps, sidecars := disk.sidecars)
        invariant disk.files.Keys == old(disk.files.Keys)
        invariant errors >= old(errors)
        invariant errors == old(errors) ==> disk.temps == {}
        invariant errors == old(errors) ==> SweptTo(old(disk), disk, listing[..i])
      {
        assert listing[i] in disk.files.Keys;
        ghost var before := disk;
        SweepEntry(listing[i]);
        if errors == old(errors) {
          SweptNext(old(disk), before, disk, listing, i);
        }
        i := i + 1;
      }
      assert listing[..i] == listing;
    }

    method LoseUnsynced(left: Remains)
      requires Tracked() && Enabled(disk, Crash(left))
      modifies `disk, `trace, `log
      ensures Tracked() && disk.files == old(disk.files) && disk.temps == old(disk.temps) && disk.saved == left.saved
      ensures log.tried == old(log.tried) && log.order == old(log.order)
    {
      Act(Crash(left));
    }

    /** `_load_state`: an absent or unreadable state file counts as zero. */
    method LoadState()
      requires Tracked()
      modifies `stateNum, `errors, `calls
      ensures Tracked() && errors >= old(errors) && (errors == old(errors) ==> stateNum == SavedNum(disk))
    {
      stateNum := 0;
      if disk.saved.Some? {
        var readable := Call();
        if readable {
          stateNum := disk.saved.value;
        }
      }
    }

    /**
     The process dies, leaving of what was not fsynced whatever `left` says, and a new one starts: volatile
     fields are reset, the saved state is read (or reset), the directory is swept.
     */
    method CrashAndRestart(left: Remains, listing: seq<Name>)
      requires Valid() && Enabled(disk, Crash(left)) && forall n :: n in disk.files <==> n in listing
      modifies this
      ensures Valid() && !isOpen
      ensures log.tried == old(log.tried)
      ensures misled ==> old(misled) || errors > old(errors)
      ensures errors == old(errors) ==> stateNum == SavedNum(disk)
      ensures errors == old(errors) && left.saved == old(disk.saved) && old(InOrder(log)) ==> Numbered()
      ensures errors == old(errors) ==> disk.temps == {} && disk.files.Keys == old(disk).files.Keys
      ensures errors == old(errors) ==> forall n :: n in old(disk).files ==>
        disk.files[n] == if IsGzip(old(disk).files[n]) then old(disk).files[n] else Gz(old(disk).files[n], [])
      ensures errors == old(errors) ==> forall n :: n in old(disk).files && !IsGzip(old(disk).files[n]) ==>
        n in disk.sidecars && disk.sidecars[n] == Sum(disk.files[n])
    {
      LoseUnsynced(left);
      isOpen, activeSize := false, 0;
      bytesWritten, filesWritten, writeFailures, filesRotated := 0, 0, 0, 0;
      LoadState();
      SweepStartup(listing);
      StillInOrder(old(log), log);
    }

    /**
     In every reachable state what is read are the attempted records, in order and each at its own
     position; all acknowledged ones are there.
     */
    lemma {:induction false} LogIsRead()
      requires Valid() && !misled
      ensures Kept(ReadEvents(log), log.tried)
      ensures IsSubsequence(Succeeded(log.tried), ReadEvents(log))
      ensures IsSubsequence(ReadEvents(log), RecordsOf(log.tried))
    {
      AcknowledgedRecordsAreRead(trace);
      RunTried(trace, true);
    }
  }

  /**
   What a recovery leaves if none of its calls fails: plain data is back in the active slot, compressed data
   has its sidecar and its number saved, and no temporary file is left.
   */
  ghost predicate Recovered(d: Disk, d': Disk, n: Name, num: nat) {
    var rest := d.(temps := d.temps - {n});
    if n !in d.files then d' == rest
    else if IsGzip(d.files[n]) then
      d' == rest.(sidecars := d.sidecars[n := Sum(d.files[n])], saved := Some(num))
    else if d.active.None? then
      d' == rest.(active := Some(d.files[n]), synced := Size(d.files[n]), files := d.files - {n})
    else d' == rest
  }

  /**
   A rotation in which exactly one call failed: the data is still or again in the active slot, or it is compressed
   under its new name with a matching sidecar.
   */
  ghost predicate OneFault(d: Disk, d': Disk, n: Name) {
    || (d'.active == d.active && d'.synced == d.synced && d'.files == d.files)
    || (d'.active.None? && d'.files == d.files[n := Gz(Plain(ActiveText(d)), [])]
        && n in d'.sidecars && d'.sidecars[n] == Sum(d'.files[n]))
  }

  lemma {:induction false} Replaced(files: map<Name, Content>, n: Name, c: Content)
    ensures files[n := c][n := Gz(c, [])] == files[n := Gz(c, [])]
    ensures files[n := c] == files[n := files[n := c][n]]
  {
  }

  /**
   A rotation that stopped before the rename, or after it: then the file is plain or compressed under its new
   name.
   */
  ghost predicate Unfinished(d: Disk, mid: Disk, n: Name) {
    || (mid.active == d.active && mid.synced == d.synced && mid.files == d.files)
    || (mid.active.None? && n in mid.files && mid.files == d.files[n := mid.files[n]]
        && mid.files[n] in {Plain(ActiveText(d)), Gz(Plain(ActiveText(d)), [])})
  }

  lemma {:induction false} BraceIsNoGzip(t: bytes)
    requires OpensWithBrace(t)
    ensures !IsGzip(Plain(t))
  {
    assert MAGIC[0] != LBRACE;
  }

  lemma {:induction false} RecoveredFromOne(d: Disk, mid: Disk, d': Disk, n: Name, num: nat)
    requires d.active.Some? && d.active.value.Plain? && d.synced == |ActiveText(d)| && n !in d.files
    requires OpensWithBrace(ActiveText(d)) && Recovered(mid, d', n, num)
    requires Unfinished(d, mid, n)
    ensures OneFault(d, d', n)
  {
    BraceIsNoGzip(ActiveText(d));
    if n in mid.files && !IsGzip(mid.files[n]) {
      assert d.files[n := mid.files[n]] - {n} == d.files;
    }
  }

  /** The entries in `part` are swept, the others as they were. */
  ghost predicate SweptTo(d: Disk, d': Disk, part: seq<Name>) {
    && d'.files.Keys == d.files.Keys
    && (forall n :: n in d.files ==>
          d'.files[n] == if n !in part || IsGzip(d.files[n]) then d.files[n] else Gz(d.files[n], []))
    && (forall n :: n in d.files && n in part && !IsGzip(d.files[n]) ==>
          n in d'.sidecars && d'.sidecars[n] == Sum(Gz(d.files[n], [])))
  }

  lemma {:induction false} SweptNext(d: Disk, mid: Disk, d': Disk, listing: seq<Name>, i: nat)
    requires i < |listing| && listing[i] in d.files && SweptTo(d, mid, listing[..i])
    requires var n := listing[i];
      d' == if IsGzip(mid.files[n]) then mid else mid.(
        files := mid.files[n := Gz(mid.files[n], [])], temps := mid.temps - {n},
        sidecars := mid.sidecars[n := Sum(Gz(mid.files[n], []))])
    ensures SweptTo(d, d', listing[..i + 1])
  {
    NextPrefix(listing, i);
    assert forall n :: n in listing[..i + 1] <==> n in listing[..i] || n == listing[i];
  }

  /** The file's last line aside, its plain bytes are within the limit. */
  ghost predicate WithinLimit(max: nat, c: Content) {
    exists front, r :: Text(c) == front + (r + [NL]) && |front| <= max
  }

  /** Every completed file that is new, or not as it was, is within the limit. */
  ghost predicate ChangedWithin(max: nat, before: map<Name, Content>, after: map<Name, Content>) {
    forall n :: n in after && (n in before ==> after[n] != before[n]) ==> WithinLimit(max, after[n])
  }

  lemma {:induction false} OneMoreFile(max: nat, files: map<Name, Content>, n: Name, front: bytes, r: bytes)
    ensures |front| <= max ==> ChangedWithin(max, files, files[n := Gz(Plain(front + (r + [NL])), [])])
  {
    var c := Gz(Plain(front + (r + [NL])), []);
    assert Text(c) == front + (r + [NL]);
  }

  /** A write of `r` was recorded; a failed one may not even have reached the file. */
  predicate Wrote(before: seq<Attempt>, after: seq<Attempt>, r: bytes, ok: bool) {
    after == before + [Attempt(r, ok)] || (!ok && after == before)
  }

  lemma {:induction false} LineLands(t: bytes, r: bytes)
    requires IsRecord(r)
    ensures Tail(t + (r + [NL])) == []
  {
    RecordShape(r);
    AppendLine(t, r);
    assert t + r + [NL] == t + (r + [NL]);
  }
}
