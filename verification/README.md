# Verified model of the LLM provider gateway's hard core

This project models five parts of the gateway in Dafny and proves what they are for.

1. **The durable capture log.** A bounded queue (`Sink`) feeds one writer (`WalWriter`, `WriterTask`). The
   writer appends newline-terminated JSON records to an active file, rotates it, repairs the directory after
   a crash, and prunes old files (`Retention`). A reader (`GzipReader`) turns the files back into records.
   `CaptureLog` is the directory as a system of filesystem actions with a crash possible between any two.
   `Bytes` holds the line algebra, and `Json` derivation trees for sections 2 to 7 of RFC 8259. The main theorem is
   crash recovery: what is read back are the records the writer tried, in order and each at its own position, and
   only records whose write failed may be missing. In `WalWriter` every
   filesystem call may fail, independently of all others: which calls succeed is an input of the writer, so each
   contract covers every combination of I/O errors, and what is promised without errors cannot be excused by one.
2. **The text-level config merge** (`ConfigLines`, `ConfigPaths`, `ConfigMerge`, `CommentBlocks`, `Splices`,
   `DeclaredValues`, `ConfigDocument`, `MergeCheck`, `Reconcile`, `FacingRules`). The main theorem: the merged text denotes
   `main`'s document with exactly the declared keys set to the chosen values, whatever comments are put back;
   and the merged text is `main`'s lines, in order, with nothing in between but preserved comments.
3. **Upstream path confinement** (`PathComponent`, `UpstreamUrl`). A bounded decode loop decides a property of all
   decodings, and the assembled URL survives the dot-segment removal of section 5.2.4 of RFC 3986.
4. **The stream assembler** (`StreamAssembler`). Over whole streams, its result depends neither on how the upstream
   cuts its deltas, nor on how it interleaves tool calls, nor on the order and repetition of usage reports.
5. **The failover loop and the origin registry** (`Failover`, `OriginRegistry`).

Code that updates state is a class or a method with a loop, proved against a function of the old state; the
lemmas are about those functions. `Options` and `Sequences` hold the shared helpers.

## Where the code does less than its documentation promises

Each of these is stated as the code behaves: an input or a run that shows it, and exactly when it happens.

- Closing a torn tail is fail-open: after a swallowed `OSError` the next acknowledged record joins the torn line.
  `CaptureLog.TerminationExact` says exactly when the record is still read as a line of its own;
  `CaptureLog.GluedRecordCostsOneLine` says that nothing before it and nothing after it is affected; and
  `CaptureLog.GluedStartsForgeARecord` shows two torn records that join to a record nobody tried to write.
- The gzip probe answers "plain" on a read error. If that moves a compressed file back to the active slot, later
  records cannot be read (`CaptureLog.MisreadProbeExact`, exact). If it happens in the startup sweep, a finished gzip
  file is compressed again and all its records disappear from the reader (`CaptureLog.CompressedAgainExact`, exact).
- A rotation that is undone, followed by a crash before the state is saved, gives a later file a smaller name
  (`RotationOrder.UndoneRotationBreaksOrder`, a run). `RotationOrder.RotationKeepsOrderExact` says from any state exactly
  when the next rotation keeps the names in rotation order; without I/O errors it always does
  (`RotationOrder.NamesAscend`, `WriterTask.RunTurns`).
- The plain reader returns nothing for a file of at most two bytes (`GzipReader.PlainRecordsExact`, exact); such a file
  holds no record.
- An exception can leave the failover loop without a terminal capture event, although candidates remain: one other than
  the translation error while a candidate's request is prepared; one in the 429 probe; one while the body of an error
  reply is read, buffered or streamed (before any health record); one other than `TypeError` and `ValueError` while a
  buffered body is parsed, whatever its status (deep nesting is enough), or while a successful one is examined (an empty
  `choices` list is enough); and one while the attempt's client is closed. `Failover.SilentExitExact` is exact over these
  exits, and `Failover.Forwarder.Forward` states it of the loop; `Failover.EscapeDecides` says the later candidates are
  skipped.
- Some exits report a stale attempt count (`Failover.ReportedIsTrueCount`, exact in terms of the deciding candidate).
- Registering a request id again does not protect it from eviction: `OriginRegistry.RegisteringAgainDoesNotProtect` and
  `OriginRegistry.HeldExact` say exactly which number of later ids evicts it.
- The assembler raises on shapes it means to ignore: an infinite tool index, an integer count no float can hold, a
  `message_start` whose message is no object. `StreamAssembler.RaisesExact` is exact for streams without negative tool
  indices, `StreamAssembler.StreamResponseAssembler.AddData` for all.
- Two comment rules that speak of the same comment run overwrite each other. `FacingRules.FacingRulesExact` gives the
  result, `Splices.SameRangeLosesExact` exactly the lines that are lost, and `FacingRules.FacingRulesLoseALine` inputs
  that lose one.
- Rewriting a header line instead of a scalar line orphans the keys below it (`ConfigMerge.RewritingHeaderBreaksPaths`);
  `ConfigMerge.RewriteKeepsPathsExact` says exactly when a rewrite keeps all paths. Rewriting one occurrence of a repeated
  key sets the key exactly when no later occurrence hides it (`ConfigDocument.RewriteSetsKeyExact`).
- The line check of the merge verifier does not look at the key of a rewritten line (`MergeCheck.KeyIsNotCompared`);
  only the document comparison does.
- A file may exceed the size limit by its last line, and by one more byte if a torn tail was closed first
  (`WalWriter.CaptureWALWriter.HandleEvent` for a turn, `WriterTask.RunTurns` for a run).

## Model

| member | source | states |
|---|---|---|
| `CaptureLog.LogReadsBack` | app/capture/wal_writer.py:256-704 | Over every run of writes, failed writes, rotation steps, recoveries, sweeps and crashes between any two of them, the reader returns the whole records of a history that tells the run's writes in order: each successful one left exactly its record, each failed one nothing or the start of its own record, and nothing else left anything |
| `CaptureLog.AcknowledgedRecordsAreRead` | app/capture/gzip_reader.py:167-193 | The same in terms of files alone: the events read are the attempted records in write order, each at its own position, and only failed ones may be missing; so the acknowledged records are a subsequence of what is read and what is read is a subsequence of what was attempted |
| `CaptureLog.RotationStepsInvisible` | app/capture/wal_writer.py:473-560 | In every reachable state, no single step of a rotation, its recovery or the sweep changes what is read |
| `CaptureLog.StepKeeps` | app/capture/wal_writer.py:221-560 | Whatever action comes next, the directory stays explained by a history: ordered files, closed lines, matching checksums, only unacknowledged bytes unsynced |
| `CaptureLog.CrashLog` | app/capture/wal_writer.py:362-387 | A crash that keeps any prefix containing the fsynced bytes loses no acknowledged line, and what it leaves open is the start of the record that was being written there |
| `CaptureLog.ExplainedReads` | app/capture/gzip_reader.py:183-193 | Reading an explained directory returns exactly the history's whole records |
| `CaptureLog.EntryParses` | app/capture/gzip_reader.py:183-193 | A line of the log parses as JSON if and only if it is a record written in full |
| `CaptureLog.WholeStart` | app/capture/gzip_reader.py:183-193 | What is left of a record and is itself a record is that very record |
| `CaptureLog.CompleteIsKept` | app/capture/wal_writer.py:669-704 | The whole records of a history that tells the writes are the attempted records in order, some failed ones missing |
| `CaptureLog.TerminationExact` | app/capture/wal_writer.py:362-387 | The next record is a line of its own if and only if there was no torn tail or closing it succeeded |
| `CaptureLog.GluedRecordCostsOneLine` | app/capture/wal_writer.py:362-387 | After a swallowed failure, whatever was closed before and whatever is written later is read as if the glued line were not there; it yields one event at most |
| `CaptureLog.GluedStartsForgeARecord` | app/capture/wal_writer.py:362-387 | Two torn starts of records, glued, are a third record that was never attempted |
| `CaptureLog.CompressedAgainExact` | app/capture/wal_writer.py:303-315 | Compressing a completed file leaves what is read as it was if and only if it was plain or held no event |
| `CaptureLog.MisreadProbeExact` | app/capture/wal_writer.py:59-65 | A record appended to a file in the active slot is read back if and only if that file is plain |
| `Json.TornRecordIsNotJson` | app/capture/wal_writer.py:676-695 | No proper prefix of a printed JSON object is a JSON text (sections 2 to 7 of RFC 8259) |
| `Json.RecordShape` | app/capture/sink.py:35-39 | A compactly printed object holds no newline, opens with a brace and has at least two bytes |
| `Json.JsonTextIsBalanced` | app/capture/gzip_reader.py:183-193 | A JSON text closes every bracket and string it opens, and none of its prefixes closes more brackets than it opened |
| `RotationOrder.NamesAscend` | app/capture/wal_writer.py:202-219 | In a run without I/O errors and with a clock that does not go back, the numeric (timestamp, number) pair strictly increases over all rotations, across crashes at any point that leave the saved state as it was |
| `RotationOrder.NextNameFresh` | app/capture/wal_writer.py:202-219 | The chosen name is free, and a fallback is used exactly when a thousand candidates are taken |
| `RotationOrder.NextNameFollowsExact` | app/capture/wal_writer.py:202-219 | A plain new name follows an older one exactly when the second has moved on or every number from the counter to the older one's is taken |
| `RotationOrder.RotationKeepsOrderExact` | app/capture/wal_writer.py:202-219 | From any state in order, whatever errors came before, exactly when the next rotation keeps the names in rotation order |
| `RotationOrder.SavedRotationKeepsOrder` | app/capture/wal_writer.py:526-551 | A completed rotation whose number is saved keeps the order and the saved number in step |
| `RotationOrder.SortedListingIsRotationOrder` | app/capture/wal_writer.py:526-551 | A listing sorted by the numeric pair is the rotation order |
| `RotationOrder.UndoneRotationBreaksOrder` | app/capture/wal_writer.py:473-560 | A run with an undone rotation and a crash whose rotation order is not the name order, each name being the one the search finds |
| `WalWriter.CaptureWALWriter.TerminatePartialLine` | app/capture/wal_writer.py:362-387 | Unless an error was swallowed, the active file is at a line start and nothing else changed |
| `WalWriter.CaptureWALWriter.OpenActiveFile` | app/capture/wal_writer.py:389-433 | An open file is at a line start with the size counter equal to its length (a lower bound if the stat failed); a failure is counted once |
| `WalWriter.CaptureWALWriter.AppendLineSync` | app/capture/wal_writer.py:676-704 | Success appends exactly the record and a newline and acknowledges it; failure leaves any prefix, closes the file and is counted once |
| `WalWriter.CaptureWALWriter.WriteEvent` | app/capture/wal_writer.py:669-704 | The same from any state, opening the file first if needed |
| `WalWriter.CaptureWALWriter.NextCompletedPath` | app/capture/wal_writer.py:202-219 | The search loop finds the specified name, and a free one if there is any among the candidates |
| `WalWriter.CaptureWALWriter.CompressAtomically` | app/capture/wal_writer.py:221-245 | Success replaces the plain bytes by their compressed form in one step; any failure leaves the file alone and at most a temporary file behind |
| `WalWriter.CaptureWALWriter.WriteSidecar` | app/capture/wal_writer.py:247-254 | Success leaves the checksum of exactly the data file; failure changes nothing but sidecars |
| `WalWriter.CaptureWALWriter.RecoverFailedRotation` | app/capture/wal_writer.py:473-510 | Whatever failed before or fails now, the log reads the same; if no call of the recovery fails, plain data is back in the active slot, or compressed data has its sidecar and its number saved, and the temporary file is gone |
| `WalWriter.CaptureWALWriter.CompleteRotation` | app/capture/wal_writer.py:527-551 | The guarded part of a rotation: what success produces, and the only two states failure can leave |
| `WalWriter.CaptureWALWriter.RotateFile` | app/capture/wal_writer.py:512-560 | For every combination of failures the log reads the same afterwards; success is one new file under a fresh name, compressed, with a matching sidecar and no temporary file, holding exactly the active bytes; with exactly one failed call the data is still or again in the active slot, or compressed with a matching sidecar |
| `WalWriter.CaptureWALWriter.RotateTo` | app/capture/wal_writer.py:526-560 | A rotation to a chosen name, or its recovery: the same for every combination of failures, and what exactly one failed call leaves |
| `WalWriter.CaptureWALWriter.HandleEvent` | app/capture/wal_writer.py:719-729 | One turn of the loop: the attempt it adds, the exact failure count, the size bound of a rotated file, and a new name that follows all earlier ones; without errors it rotates exactly when the file has reached the limit or its age, and the new file holds exactly the text grown by the record |
| `WalWriter.CaptureWALWriter.Rotate` | app/capture/wal_writer.py:450-461 | A forced rotation changes nothing a reader sees, and does nothing on an empty or closed file; without errors the active bytes are in a new compressed file with its sidecar and an empty file is open |
| `WalWriter.CaptureWALWriter.SweepEntry` | app/capture/wal_writer.py:303-323 | A file left plain is compressed and gets its sidecar, and the log reads the same; a compressed file is compressed again only if the probe misread it, and then exactly once more; without errors the new directory is stated whole |
| `WalWriter.CaptureWALWriter.SweepStartup` | app/capture/wal_writer.py:256-323 | The sweep changes nothing a reader sees; without errors no temporary file is left, every plain completed file is compressed with a matching sidecar, and every other file is as it was |
| `WalWriter.CaptureWALWriter.CrashAndRestart` | app/capture/wal_writer.py:124-187 | Losing unsynced bytes of the active file, any sidecars and the latest state file, restarting and sweeping keeps every acknowledged record, restores the saved number, and keeps the name order if the state file survived; without errors no temporary file is left, every file that was plain is compressed with a matching sidecar, and every other file is as it was |
| `WalWriter.CaptureWALWriter.LogIsRead` | app/capture/wal_writer.py:669-704 | In every reachable state of the class what is read are the attempted records in order, only failed ones missing; all acknowledged ones are there and nothing else is read |
| `GzipReader.IterPlainRecords` | app/capture/gzip_reader.py:57-78 | However the file is cut into chunks, exactly its newline-terminated lines come out, provided a chunk follows the probe |
| `GzipReader.PlainRecordsExact` | app/capture/gzip_reader.py:57-68 | The reader yields the file's lines if and only if the file has more than two bytes or no closed line |
| `GzipReader.SplitMember` | app/capture/gzip_reader.py:150-160 | However the decompressor cuts its output, the records are its closed lines |
| `GzipReader.CompressionInvisible` | app/capture/gzip_reader.py:57-180 | A log of more than two bytes reads the same plain and compressed, however the plain file is cut into reads and however the decompressor cuts its output |
| `Bytes.JoinThenSplit` | app/capture/gzip_reader.py:57-78 | Newline-free lines written one after the other are read back as exactly those lines |
| `Sink.CaptureSink.TryPut` | app/capture/sink.py:122-145 | Accepts exactly when open and below the bound; a refused event is counted as dropped |
| `Sink.CaptureSink.Get` | app/capture/sink.py:155-176 | Hands out the oldest slot, or nothing if the closed queue is empty; a sentinel is no event |
| `Sink.CaptureSink.DrainRemaining` | app/capture/sink.py:178-190 | Returns all that was accepted and not yet handed out, in order |
| `Sink.CaptureSink.Close` | app/capture/sink.py:192-199 | Closing loses no queued event, and the sentinel goes in exactly when it fits |
| `WriterTask.Run` | app/capture/wal_writer.py:706-766 | On any directory and any open queue, over every run and stop: every put is counted; the accepted events are exactly the puts that find room, in order; those handed out since are exactly the outcomes, each written or counted as a failure; what can be read back are the earlier attempts and then these events in order, only failed ones missing; and without I/O errors none fails |
| `WriterTask.OneTurn` | app/capture/wal_writer.py:712-729 | The puts that find room join the queue; then, if anything is queued, exactly the oldest event gets exactly one outcome |
| `WriterTask.RunTurns` | app/capture/wal_writer.py:706-731 | Over every run of turns on any directory, every event handed out has its outcome and every failure is counted; without I/O errors each file rotated is within the size limit but for its last line, and the names stay in rotation order if the clock does not go back |
| `WriterTask.AdmittedInOrder` | app/capture/sink.py:122-145 | Over any turns every put is counted, and the accepted events are offered ones in the order they came |
| `WriterTask.KeptThinned` | app/capture/wal_writer.py:669-704 | What the file's own writes tell about the events read, the outcomes of the accepted events tell as well |
| `WriterTask.Stop` | app/capture/wal_writer.py:155-172 | The puts up to the close that find room are accepted, and the drain leaves no accepted event without an outcome; without errors a file that is due is rotated before it is closed |
| `WriterTask.OutcomesPartition` | app/capture/wal_writer.py:669-704 | Written and failed events partition the accepted ones |
| `Retention.RetentionSweep.EnforceRetention` | app/capture/wal_writer.py:572-665 | The removed units are a prefix in mtime order, but for the paths whose unlink fails, each path gone counted; the rest is none older than the cutoff, with its total as computed, within quota or empty; the quota phase removed no unit without need |
| `Retention.RetentionSweep.Remove` | app/capture/wal_writer.py:630-637 | Exactly the paths whose unlink succeeds are gone, and counted |
| `Retention.NothingOldNothingOver` | app/capture/wal_writer.py:572-665 | In terms of the directory: no data file older than the cutoff is left, nor an older orphaned sidecar, and the removable files take up no more bytes than the quota, unless none is left |
| `Retention.TotalIsBytes` | app/capture/wal_writer.py:588-626 | The running total is the number of bytes the units' files take up, sidecars included |
| `Retention.CleanSweep` | app/capture/wal_writer.py:572-665 | With successful unlinks: active, legacy-active and state files stay, a paired sidecar survives exactly when its data file does, and the surviving removable paths are those of the remaining units |
| `Retention.RetentionSweep.CollectUnits` | app/capture/wal_writer.py:588-626 | The two listing passes cover every data file and every sidecar exactly once, with the right total |
| `Retention.RetentionSweep.ExpireOld` | app/capture/wal_writer.py:640-653 | The age phase removes exactly the units older than the cutoff |
| `Retention.RetentionSweep.TrimToQuota` | app/capture/wal_writer.py:655-662 | The quota phase stops at the first suffix within quota |
| `Retention.InventoryCovers` | app/capture/wal_writer.py:588-626 | The units' paths are exactly the removable paths of the directory |
| `PathComponent.CheckComponent` | app/upstream_url.py:122-169 | Accepts exactly when the path is nonempty, has no control character, settles within the four checked rounds and is safe under every number of decodings; so an unsafe text is refused however its characters are escaped and however often that is done |
| `PathComponent.EncodedDecodes` | app/upstream_url.py:148-160 | Decoding inverts percent-encoding, with upper-case or lower-case digits (section 2.1 of RFC 3986) |
| `PathComponent.DisguiseDecodes` | app/upstream_url.py:148-160 | Decoding turns a text with any of its characters escaped, in either case, back into that text |
| `PathComponent.HiddenShowsUp` | app/upstream_url.py:148-160 | A text under any number of such disguises shows up after as many decodings |
| `PathComponent.EncodedHides` | app/upstream_url.py:148-160 | A text encoded once, twice and three times is hidden under as many disguises |
| `PathComponent.EscapeInContext` | app/upstream_url.py:148-160 | Wherever it stands, an escape below 128 decodes to its character and leaves the rest alone |
| `PathComponent.HighBytesDecode` | app/upstream_url.py:148-160 | The escapes of a run of higher bytes are handed to the UTF-8 decoding as exactly those bytes |
| `PathComponent.HexDigitsExact` | app/upstream_url.py:148-160 | Exactly the hexadecimal digits of both cases make an escape |
| `PathComponent.SegmentsRejoin` | app/upstream_url.py:172-189 | The segments hold no slash and, with slashes in between, are the string again |
| `PathComponent.AcceptedForEveryDecoding` | app/upstream_url.py:122-169 | The checked rounds decide the property of all decodings: if and only if |
| `PathComponent.SafeForever` | app/upstream_url.py:148-169 | Once a round settles safely, every later decoding is safe |
| `PathComponent.DecodingShortens` | app/upstream_url.py:148-160 | Percent-decoding strictly shortens any string that holds an escape, for any repair of invalid bytes (section 2.1 of RFC 3986) |
| `PathComponent.DecodingSettles` | app/upstream_url.py:148-160 | So decoding reaches a fixpoint after at most as many rounds as the string is long |
| `PathComponent.CheckSegments` | app/upstream_url.py:172-189 | Accepts exactly the safe strings, and exactly when each of the four refusals is given |
| `UpstreamUrl.BuildUpstreamUrl` | app/upstream_url.py:204-269 | A built URL keeps scheme and authority, and its path after dot-segment removal is the normalized base and prefix followed by the component unchanged; a base with a query or fragment never builds, nor does a component that hides something unsafe; for a plain base the component check alone decides |
| `UpstreamUrl.ComponentSurvives` | app/upstream_url.py:192-201 | Behind any path, a component without dot segments comes out of dot-segment removal unchanged (section 5.2.4 of RFC 3986) |
| `UpstreamUrl.DotFreePasses` | app/upstream_url.py:245-262 | A path without dot segments passes through dot-segment removal unchanged |
| `UpstreamUrl.DotsResolve` | app/upstream_url.py:245-262 | The rewriting rules of section 5.2.4 of RFC 3986 resolve a path segment by segment: "." stays, ".." goes up, anything else goes down |
| `UpstreamUrl.ParseThenPrint` | app/upstream_url.py:218-225 | A parsed URL is its parts put back together |
| `UpstreamUrl.PrintThenParse` | app/upstream_url.py:229-243 | Well-formed parts put together parse to themselves (appendix B of RFC 3986) |
| `UpstreamUrl.AssembledPath` | app/upstream_url.py:229-269 | What the later checks see for a component that is safe as it stands |
| `UpstreamUrl.PlainPaths` | app/upstream_url.py:245-269 | For a plain base, removing dot segments leaves base, prefix and component as they are |
| `StreamAssembler.StreamResponseAssembler.AddData` | app/capture/stream_assembler.py:55-218 | Exactly when one chunk raises, and otherwise what it adds; an exception leaves the content flag right |
| `StreamAssembler.StreamResponseAssembler.MergeToolCalls` | app/capture/stream_assembler.py:220-248 | Exactly when the in-place merge raises (an infinite index, or a negative one beyond the list as it is by then); otherwise it is the fold of the deltas |
| `StreamAssembler.StreamResponseAssembler.MergeOneDelta` | app/capture/stream_assembler.py:222-248 | One delta changes exactly the call at its index, a negative one counted from the end, and appends as many empty calls as it needs |
| `StreamAssembler.StreamResponseAssembler.ExtractUsage` | app/capture/stream_assembler.py:250-282 | A usage report never lowers a counter, changes it only to a reported value, and leaves it at least at that value; it raises exactly for a count no float can hold |
| `StreamAssembler.ReportExact` | app/capture/stream_assembler.py:250-266 | A reported number is cut off toward zero; the second field stands in only for a first one that is missing, zero or otherwise false |
| `StreamAssembler.RaisesExact` | app/capture/stream_assembler.py:55-282 | Without negative tool indices a chunk raises if and only if it has an infinite tool index, a message_start whose message is no object, or a usage report with a count no float can hold |
| `StreamAssembler.MergeIsPerIndex` | app/capture/stream_assembler.py:220-248 | Each tool call is the fold of the deltas for its own index, and there are as many as the largest index needs |
| `StreamAssembler.FoldParts` | app/capture/stream_assembler.py:232-248 | A call has the first id, type and name reported and the concatenation of its argument fragments |
| `StreamAssembler.InterleavingInvariant` | app/capture/stream_assembler.py:220-248 | Delta lists that agree on each index, however interleaved, merge to the same calls |
| `StreamAssembler.FragmentationInvariant` | app/capture/stream_assembler.py:220-248 | In any delta list, an argument fragment may arrive in two pieces |
| `StreamAssembler.StreamFragmentation` | app/capture/stream_assembler.py:91-118 | In any stream, any choice's content may arrive in two chunks, whatever choices stand around it |
| `StreamAssembler.ReasoningStreamFragmentation` | app/capture/stream_assembler.py:108-115 | In any stream, any choice's reasoning may arrive in two chunks, whatever choices stand around it |
| `StreamAssembler.ArgumentStreamFragmentation` | app/capture/stream_assembler.py:116-119 | In any stream, any argument fragment may arrive in two chunks, whatever deltas and choices stand around it |
| `StreamAssembler.ChunkCut` | app/capture/stream_assembler.py:91-119 | Any chunk may be cut between two of its choices |
| `StreamAssembler.StreamTools` | app/capture/stream_assembler.py:91-119 | The tool calls of any chat stream are the merge of all its deltas, whatever chunks and choices they came in |
| `StreamAssembler.StreamCalls` | app/capture/stream_assembler.py:91-208 | The tool calls of any stream, of either format, are its deltas merged and its finished calls appended, in the order they came |
| `StreamAssembler.StreamText` | app/capture/stream_assembler.py:91-190 | The content of any stream is its pieces of text in order (delta content, legacy text, Anthropic text and partial JSON, Responses deltas), with a whole message only where nothing came before |
| `StreamAssembler.StreamReasoning` | app/capture/stream_assembler.py:108-195 | The reasoning of any stream is the concatenation of its reasoning deltas |
| `StreamAssembler.StreamReasons` | app/capture/stream_assembler.py:85-212 | The finish reasons and the provider of any stream are the last ones reported; a done response sets the finish reason whatever its status says |
| `StreamAssembler.SaidIsJoined` | app/capture/stream_assembler.py:91-190 | Without whole messages the content is the plain concatenation of its pieces |
| `StreamAssembler.WholeOnlyFirst` | app/capture/stream_assembler.py:129-138 | A whole message is the content so far where there was none, and is ignored otherwise |
| `StreamAssembler.StreamInterleaving` | app/capture/stream_assembler.py:220-248 | Streams that agree on the deltas of each call assemble the same calls, each the fold of its own deltas, and the same response if they agree on everything else |
| `StreamAssembler.StreamSwap` | app/capture/stream_assembler.py:220-248 | In any stream, two neighbouring deltas of different calls may change places, wherever the bounds of chunks and choices lie; the whole response is the same |
| `StreamAssembler.StreamCounters` | app/capture/stream_assembler.py:250-282 | The assembled token counters of any stream are the largest of all its usage reports |
| `StreamAssembler.StreamCountersOrderFree` | app/capture/stream_assembler.py:250-282 | Streams with the same usage reports, in whatever order and however often, assemble the same counters |
| `StreamAssembler.CounterIsMaximum` | app/capture/stream_assembler.py:250-282 | The counter a list of reports makes is the largest of them, and is one of them |
| `StreamAssembler.CounterOrderFree` | app/capture/stream_assembler.py:250-282 | For lists of reports, order and repetition do not matter |
| `Failover.Forwarder.Forward` | app/cloud_inference/forwarding.py:539-1177 | The loop answers with the first decisive outcome, an escaping exception included, or the last one; in the fields of the candidates: it goes on exactly from one that was not ensured, whose send raised, or that was refused for now, nothing escaping; the first to serve behind such candidates is the answer; its health records are the candidates' own up to there, and at most one terminal event is sent, which says how it ended |
| `Failover.Forwarder.TryCandidate` | app/cloud_inference/forwarding.py:557-636 | One candidate: stop with its verdict, or go on exactly if it could not be ensured, its send raised or it was refused for now; with its health records and event |
| `Failover.Forwarder.AttemptStreaming` | app/cloud_inference/forwarding.py:696-851 | The streaming path of one attempt, probe included |
| `Failover.Forwarder.AttemptBuffered` | app/cloud_inference/forwarding.py:853-1119 | The buffered path of one attempt, probe included |
| `Failover.Forwarder.FinishBuffered` | app/cloud_inference/forwarding.py:978-1119 | A buffered reply that counts: error body read, health recorded, passed over with its client closed, or parsed, examined and reported; and where each step may raise |
| `Failover.DecidesIsUnique` | app/cloud_inference/forwarding.py:539-1177 | No two candidates can both be the deciding one, so the loop's answer is determined |
| `Failover.FallsExact` | app/cloud_inference/forwarding.py:557-1003 | What the loop goes on from, in the fields of a candidate alone |
| `Failover.ServedExact` | app/cloud_inference/forwarding.py:734-1119 | What serves, in the fields of a candidate alone |
| `Failover.GoneOnFromRecords` | app/cloud_inference/forwarding.py:924-998 | The exact health records of a candidate the loop goes on from |
| `Failover.LastRefusedRecords` | app/cloud_inference/forwarding.py:992-1002 | The exact health records of a last candidate that was refused |
| `Failover.LastUnreachedRecords` | app/cloud_inference/forwarding.py:734-762 | The exact health records of a last candidate that was not reached |
| `Failover.ServedRecords` | app/cloud_inference/forwarding.py:990-998 | The exact health records of a candidate that serves |
| `Failover.NoFailureForRateLimit` | app/cloud_inference/__init__.py:178-192 | No run records a health failure for a 429 |
| `Failover.SuccessOnlyForWinner` | app/cloud_inference/forwarding.py:842-851 | Success is recorded only for the deciding candidate, with a status below 400, and always when it served |
| `Failover.ReportedIsTrueCount` | app/cloud_inference/forwarding.py:761-840 | The reported number of attempts is right if and only if the deciding candidate's send did not raise and its stream was not refused |
| `Failover.SilentExitExact` | app/cloud_inference/forwarding.py:557-1032 | With capture on, a nonempty list of candidates ends without a terminal event if and only if an exception escapes at the deciding candidate: in preparing, probing, reading an error body, parsing or examining a buffered body, or closing the client |
| `Failover.EscapeDecides` | app/cloud_inference/forwarding.py:734-762 | A candidate at which an exception escapes decides: those behind it are never tried |
| `OriginRegistry.OriginRegistry.RegisterRequestOrigin` | app/capture/integration.py:180-205 | Registration as a step of the specification: cleaned identity, eviction of the oldest only when full and new |
| `OriginRegistry.OriginRegistry.ApplyRequestOrigin` | app/capture/integration.py:207-223 | Fields given by the caller are returned unchanged, missing ones are filled, and only a terminal event forgets |
| `OriginRegistry.RunTracked` | app/capture/integration.py:180-223 | Over every run the registry agrees with an unbounded map wherever it holds an entry |
| `OriginRegistry.IdentityReachesTerminal` | app/capture/integration.py:180-223 | It never exceeds 4096 entries, and an identity is found unchanged while fewer than 4096 keys were entered since its own |
| `OriginRegistry.IdentityWithinWindow` | app/capture/integration.py:180-223 | In terms of the operations alone: with fewer than 4096 registrations of other ids since its own, the terminal event finds exactly the identity registered |
| `OriginRegistry.RegisteredIsStamped` | app/capture/integration.py:180-223 | From registration to terminal event, with fewer than 4096 operations on other ids in between: each field of the stamped context is the caller's own, else the registered one if not empty, else absent |
| `OriginRegistry.FreshKeepsNewest` | app/capture/integration.py:195-205 | Registering fresh ids keeps the newest 4096 of all entries, in order |
| `OriginRegistry.HeldExact` | app/capture/integration.py:195-205 | Exactly how many fresh ids the entry at a position outlives |
| `OriginRegistry.RegisteringAgainDoesNotProtect` | app/capture/integration.py:195-205 | An id registered again is evicted by exactly the same later registrations as if it had not been |
| `ConfigLines.PathMap` | scripts/prepare_deployment.py:301-323 | The loop computes each line's path; what that path is, `ConfigPaths.PathIsEnclosingKeys` says without a stack |
| `ConfigPaths.PathIsEnclosingKeys` | scripts/prepare_deployment.py:301-323 | A key's path is the keys of exactly the headers that enclose its line, outermost first: less indented headers above it with only deeper key lines in between |
| `ConfigLines.CommentsAreInvisible` | scripts/prepare_deployment.py:301-323 | Replacing any run of comment lines by any other leaves the document as it is |
| `ConfigLines.FindKey` | scripts/prepare_deployment.py:326-331 | The line found is the first with the path; none is found only if no line has it |
| `ConfigLines.HeadMatches` | scripts/prepare_deployment.py:298-298 | A printed key line matches the key expression with exactly its parts |
| `ConfigLines.StripExact` | scripts/prepare_deployment.py:334-357 | Stripping takes away white space only, and all there is at both ends |
| `ConfigMerge.PrintedReadsBack` | scripts/prepare_deployment.py:384-404 | A formatted scalar in front of any trailing comment is read back as exactly itself, quotes doubled or not |
| `ConfigMerge.FormattedMeans` | scripts/prepare_deployment.py:384-404 | A printed value stands for exactly that value's text, plain or between single quotes (section 7.3.2 of YAML 1.2.2) |
| `ConfigMerge.PlainIsPlain` | scripts/prepare_deployment.py:392-404 | A text printed without quotes is trimmed and nonempty and holds none of the characters that end or change a plain scalar |
| `ConfigMerge.RewrittenLine` | scripts/prepare_deployment.py:412-422 | A rewritten line keeps indentation, key and comment and carries the new scalar |
| `ConfigMerge.RewriteChangesOneEntry` | scripts/prepare_deployment.py:412-422 | Rewriting a scalar line changes that line's entry and no other entry or path |
| `ConfigMerge.RewriteKeepsShape` | scripts/prepare_deployment.py:412-422 | It moves no path and no entry |
| `ConfigMerge.RewriteKeepsPathsExact` | scripts/prepare_deployment.py:412-422 | Rewriting a key line keeps every path if and only if it is a scalar line or the next key line is not indented deeper |
| `ConfigMerge.RewritingHeaderBreaksPaths` | scripts/prepare_deployment.py:301-323 | A header line given a scalar orphans the child below it |
| `CommentBlocks.LeadingComments` | scripts/prepare_deployment.py:334-341 | The block is the maximal comment run above the line |
| `CommentBlocks.LeadingBlockComments` | scripts/prepare_deployment.py:344-357 | The block is the maximal comment run below the line |
| `CommentBlocks.MergeCommentBlock` | scripts/prepare_deployment.py:360-381 | The lines `main` knows are, in the result, exactly `main`'s block; the others are the local extras, each as often as it occurs; with common lines in the same order the local block is a subsequence too |
| `CommentBlocks.OrderKept` | scripts/prepare_deployment.py:369-380 | Common lines keep their order in the result |
| `Splices.BottomUpIsSimultaneous` | scripts/prepare_deployment.py:605-608 | Bottom-up splicing of disjoint ranges is simultaneous substitution |
| `Splices.SplicesAreInvisible` | scripts/prepare_deployment.py:578-608 | Comment splices never change the document, even when two hit the same range |
| `Splices.SortedNested` | scripts/prepare_deployment.py:605-608 | Sorted edits of whole comment runs are disjoint or on the same run |
| `Splices.SameRangeLosesExact` | scripts/prepare_deployment.py:605-608 | What two edits of one range leave, and exactly which lines of the first one are lost |
| `FacingRules.FacingRulesExact` | scripts/prepare_deployment.py:583-608 | The text two rules on one comment run produce, from what each rule planned |
| `FacingRules.FacingRulesLoseALine` | scripts/prepare_deployment.py:583-608 | Inputs, for any two keys and comments, for which the two planned edits drop a live comment line and double one of `main`'s |
| `DeclaredValues.RewriteValues` | scripts/prepare_deployment.py:521-574 | Only key lines of changed keys differ and carry the chosen value; with distinct keys each declared line is `main`'s, or `main`'s with the operator's timeout or the live value in it, as its rule says; problems are reported exactly for keys `main` lacks or that must be located and have no line |
| `DeclaredValues.ApplyRule` | scripts/prepare_deployment.py:526-574 | One declared key: refused exactly when `main` lacks it or it must be located and cannot be; otherwise the line gets the operator's timeout, the live value or stays, and the delta records which |
| `DeclaredValues.LinesDeclared` | scripts/prepare_deployment.py:526-574 | Over all rules, only key lines of changed keys differ from `main`, each just by its value when no key is declared twice |
| `DeclaredValues.LineMeant` | scripts/prepare_deployment.py:526-574 | What is on a rule's line after all rules: the operator's timeout, else the live value, where it differs from `main`'s, else `main`'s line |
| `DeclaredValues.JoinSplit` | scripts/prepare_deployment.py:527-527 | A dotted key splits into parts without dots that join to the key |
| `DeclaredValues.LinesSetValues` | scripts/prepare_deployment.py:526-574 | If every declared line carries a scalar, the entries are `main`'s with exactly the choices set |
| `ConfigDocument.ValuesAsDocument` | scripts/prepare_deployment.py:526-574 | If no declared key stands twice, the merged document is `main`'s with exactly the differing choices put in |
| `ConfigDocument.ValuesMeant` | scripts/prepare_deployment.py:526-574 | Each declared key holds the operator's timeout, the live value or `main`'s, as its rule says, and every other key what it held |
| `ConfigDocument.RewriteSetsKeyExact` | scripts/prepare_deployment.py:326-331 | Rewriting one occurrence sets the key if and only if no later occurrence hides it or it already has the value |
| `MergeCheck.VerifyMerged` | scripts/prepare_deployment.py:625-689 | For any valid edit script, no problem is reported exactly when the documents agree, the preserved lines are present and every opcode passes; and then the text is accounted for line by line |
| `MergeCheck.CheckLines` | scripts/prepare_deployment.py:659-688 | The line check alone: silent exactly when every opcode passes |
| `MergeCheck.AccountedPlaces` | scripts/prepare_deployment.py:632-637 | An accounted text contains `main`'s lines in order, each as it was or rewritten to its chosen value, and every other line is an allowed comment |
| `MergeCheck.KeyIsNotCompared` | scripts/prepare_deployment.py:678-688 | The line check accepts any key in front of the chosen value |
| `Reconcile.Reconcile` | scripts/prepare_deployment.py:489-622 | The whole merge: each declared key holds the operator's timeout, the live value or `main`'s as its rule says, and every other key what `main` holds; every dropped comment line arrives when no two rules speak of one run; and an accepted result (or any result under those conditions, if the parser reads what was written behind the colon back as the choice) is accounted for line by line |
| `Reconcile.PlanRule` | scripts/prepare_deployment.py:583-604 | A comment rule edits exactly the run it speaks of, and only when the live run has lines `main` dropped |
| `Reconcile.PreservedArrive` | scripts/prepare_deployment.py:578-608 | Without clashes all edits take effect at once and every preserved line is in the result |
| `Reconcile.ReconciledIsAccounted` | scripts/prepare_deployment.py:578-622 | The reconciled text is what the verifier certifies, for a parser that reads a blank, the printed choice and the line's own trailing comment back as the choice |
| `Reconcile.NoFacingNoClash` | scripts/prepare_deployment.py:583-604 | If no two rules speak of the same run, no two edits clash |
| `Reconcile.FacingExact` | scripts/prepare_deployment.py:583-604 | Two rules' edits are on one nonempty range exactly if the rules speak of one comment run |

## Left out

- zlib bit streams, the member-boundary probe and the resynchronization across damaged members: gzip is an abstract inverse pair; bytes appended behind a member are unreadable in the model.
- Values of checksums and HMACs, file modes, log lines, free disk space, directory fsync: a rename or replace of a data file that returned is taken as durable, while a crash may lose or empty any sidecar and may change or lose the state file.
- The migration of a legacy gzip active file, and plain `.jsonl` leftovers in the sweep; the plain-legacy branch can archive twice after a crash.
- Unexpected exceptions in the writer task, the ten-second stop timeout, event-loop rebinding, and an administrator's rotation running at the same time as the task.
- Retention inside the crash-recovery theorem: pruning removes records on purpose, so it is proved on its own; age and size come from the listing.
- The completed-file order a consumer uses: the theorems read files in rotation order, and `RotationOrder.SortedListingIsRotationOrder` says when sorting by number gives it; sorting the names as text does not.
- RotationOrder.NamesAscend: on runs of the action system, with a crash between any two actions; the class meets it turn by turn (`WriterTask.RunTurns`) and across restarts (`WalWriter.CaptureWALWriter.CrashAndRestart`); the fallback name after a thousand taken ones is outside it.
- Normalization the HTTP client adds to a URL (percent-quoting, host case, default ports): the model parses by appendix B of RFC 3986.
- PathComponent.CheckComponent: decoding of invalid UTF-8 is an arbitrary repair that does not lengthen the run and introduces no percent sign.
- Full YAML (anchors, flow mappings, multi-line scalars, sequences) and the exact output of `difflib`: the reader's own block-mapping subset, and any valid edit script.
- ConfigMerge.PrintedReadsBack: the printed text is read back as the same text; that a string such as `true` or `12`, which the formatter does not quote, comes back as another type is up to the parser, and `Reconcile.Reconcile` takes the parser's answer as a condition.
- Reconcile.Reconcile: the two parsed documents, the scalar parser and the document comparison are inputs, since they are the YAML library's; that they agree with the lines is not assumed, except where `ParsesBack` says so.
- ConfigLines: a double-quoted scalar that contains white space and a hash is cut there, as the line rewriter cuts it.
- DeclaredValues.RewriteValues: two values are equal when they print alike; the cross-type equality of Python (`True == 1`) is not modelled, and a declared value is a scalar.
- Joining the merged lines to one text and the final newline; white space is the modelled set of characters.
- The usage fields mirrored beside the token counters, translation bridges between response formats, the degeneration detector, and the parsing of a raw SSE line into its fields.
- Failover.Forwarder.Forward: candidates, replies and exceptions are inputs; health is a log of records, the tracker's own arithmetic is not modelled, and a disconnect of the client is an outcome of a buffered send only. Outside it are exceptions of the gateway's own lookups and bookkeeping, cancellation of the handler, a streamed response whose generator is never started, and whatever is raised after the terminal event was sent.
- StreamAssembler.StreamResponseAssembler.AddData: the part of a chunk that was merged before an exception is not specified, memory is unbounded, and the stream theorems speak of streams whose chunks do not raise.
- `apply_plan`, git calls, rendering, the destination policy, redaction, and the HTTP handlers: branch-by-branch decisions or I/O.
