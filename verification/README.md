# Tensou's resumable transfer, modelled and proved in Dafny

Tensou sends files over QUIC. A file above 64 KiB is cut into 4 MiB chunks, and a bitmap records which chunks the
receiver has on disk. The receiver saves that bitmap every 16 chunks in a `.state` file beside the growing `.part`
file; after an interruption the sender derives the missing work from the saved bitmaps; when a bitmap is full,
`commit` removes `.state` and renames `.part`. This project models that engine, `crates/core`, and proves that it
delivers the source bytes over any number of interruptions, and where exactly it does not.

`dafny verify dfyconfig.toml` checks everything.

## How it is built

- `Writer` has the class `ReceiveSession`, with the fields and the `select!` loop of `writer.rs`. Its methods act on
  a `FileStore` and are proved against the pure `Step` and `Run`, which give the new session together with every
  disk state passed through. A crash "between any two disk operations", or inside a torn write, is a position in
  that trace (`Disk`).
- `CrashSafety` states what the writer keeps at each of those positions; `Instruction` is the receiver's half of the
  handshake, `Handshake` the sender's.
- `Tree` is the receiver's directory tree, one map from paths to files. What the writer of a file sees is a view of
  the tree at that file's three paths, so files whose paths coincide see each other's data.
- `Protocol` is the transition system on top: rounds over all files of a transfer in one tree, with handshakes,
  chunk streams arriving in any order and with any payload, lost streams, drops, cancels, writer turns, disk faults,
  crashes, the removal of the staging folder, and anything that happens on other paths. Its theorems are over all
  runs, starting from any tree a paused or crashed transfer can have left.
- `Whole` puts the small files in front of a run and says what a transfer leaves alone; `Arrivals` follows the
  payloads to say what the sender's own success is worth; `TwoSelections` is a run that reports success with wrong
  bytes, for two files of one path.
- `Chunks` and `Bitmap` hold the arithmetic and the bitmap codec; `Framing` and `SmallFiles` the small-file stream;
  `Window` the sender's sliding window; `Manifest`, `UniquePath` and `Staging` the names; `Receiver` the end of a
  round and the retry loop; `Consent` the daemon's consent set under concurrent connections.
- `Limits` collects exact conditions: for each place where the code keeps its promise only sometimes, a lemma says
  when, as an if-and-only-if.

## Hypotheses of the end-to-end theorems

Each is a clause of `Transfer.Valid`, `Init` or `Enabled` in `Protocol`.

1. *Ids are positions.* `flatten` looks bitmaps up by id, the receiver sends them by position. `AlignmentNeeded`
   shows that nothing weaker will do, `AlignedIff` when `build` provides it.
2. *Separate paths*: no two files of the transfer share a `.part`, `.state` or final path, and no final path lies in
   the staging folder (`Transfer.Apart`). `IndependentIff` shows that this is exactly what keeps the files from
   meeting, `SeparateIff` that it means distinct resolved paths without the staging folder's name in its place.
   Three inputs break it: two selections of one name (`TwoOfOneName`, `SuccessWithWrongBytes`), two targets renamed
   to one name (`NamesCollide`, `TwoTargetsOneName`, `FolderAndFileOneName`, `TargetsMeet`), and a sent folder with
   a `.tensou` of its own (`SentStagingFolder`). For small files beside large ones the like is `SmallApart`. That
   files lie below the folder of their transfer is `PrefixPlaced`.
3. *The source does not change*, is readable, and no other payload has the hash of one of its chunks.
4. *One live writer per file*: a handshake waits until the writers of the round before have ended, and nothing else
   touches the transfer's own paths. README.md:157 of the repository admits races here; `StaleSave` shows what one
   can do.
5. *A first tree in order.* Of a file that meets the mode's skip rule without a `.state`, or in Sync mode with any
   staging files, nothing else is asked: it is one of the `kept` ones. Of another file without a `.state` this asks
   that a single-chunk file meets no longer file at its final path (`FreshStart`). A `.state` must be one left by
   this transfer, and beside it a final file that meets the skip rule must be the source already (`CommitCrash`).
6. *The resolved path and the mode are the same in all rounds.* `PathKept` says when a reconnect finds the same
   path. In Unique mode it never does for a renamed folder sent alone (`FolderAlone`) nor, once the handshake has
   made its folder, for a folder among several targets, renamed or not (`FolderAmongSeveral`); for a top-level file
   only while it is not renamed with its `.state` there, or its final file is not (`FileAtTop`). Such a reconnect
   begins a transfer to other paths, and the theorems are about the rounds at one set of paths.
7. *The clock stands apart*: in Sync mode a single-chunk file is not written over an old file of the same length in
   the very second of the source's mtime, unless they differ in the first byte at most (`ClockApart`). `SyncWrite`
   shows that exactly then a half-written file would look finished.
8. Packet headers name the chunk the sender read; payloads are arbitrary.

## Where the code does less than it seems to

- `flatten` (send.rs:369-371) asks for the wrong chunks as soon as a small file precedes a large one in the walk
  (`AlignedIff`, `MisalignedAsks`).
- Nothing keeps two files of one transfer apart (hypothesis 2): the later commit wins (`SameNameLoses`), and an
  undisturbed round of two selections of one name reports success with the first file lost (`SuccessWithWrongBytes`,
  `OneByteLost`). Before success is reported `cleanup` (staging.rs:86-97) removes final files that lie in the
  staging folder, and only those (`SweepTakes`, `SweepSpares`).
- A file of 64 KiB to 4 MiB is written over a longer existing file without truncation and keeps its tail
  (writer.rs:130-158, `SmallWrite`).
- A crash between the two steps of `commit` (writer.rs:188-204) leaves only the old final file; one of the right
  length is then taken for the finished transfer in Unique mode (`CommitCrash`).
- In Unique mode a reconnect looks for staging data at two places that go by the original name (manifest.rs:22-30).
  A transfer of one folder stages at the first of them unless the folder was renamed (`FolderStagingIs`), a
  top-level file at the second unless it was renamed (`FileStateIs`), a folder among several targets at neither. So
  a renamed folder, any folder among several targets and a committed top-level file get yet another name on every
  reconnect (hypothesis 6), and the work on them starts again.
- "Never overwrites" (types.rs:36) fails in two ways. The chosen path itself is taken when staging data exists
  beside a file of the original name (`TargetFree`). And small files travel under the sender's path
  (send.rs:392-397) and are written there (writer.rs:36-38), not where the handshake resolved them to: a renamed
  small file overwrites the existing file of its original path, as `P/x` when a folder `P` is sent to where another
  `P/x` is (`RenamedOverwrites`). `OverwritesIff` says exactly when nothing is overwritten.
- For the same reason a renamed target receives what was sent under its new name, if anything was (`DeliveredIff`),
  and a small file sent under the path a large file was resolved to shows as that large file (`SmallMeetsLarge`).
- The sender reports success when it has sent everything and the connection has closed, for whatever reason
  (connection_manager.rs:95-97): an undisturbed round that ends in a hash mismatch is a success on its side
  (`SenderOkIff`).
- In Unique mode a small file whose write is broken off stays short: the next handshake skips it because it exists
  (`RoundKeeps`).
- "Always re-transfers everything" (types.rs:39) is not so for Overwrite when a `.state` with a set bit exists
  (`OverwriteRestarts`, `OverwriteResumes`).
- A stream that ends before the small-file count is whole counts as no small files at all (recv.rs:516-519,
  `CutAnywhere`).
- The comment at connection_manager.rs:47 speaks of exponential backoff; the code waits one second, then two each
  time (`BackoffIsFlat`).
- `cleanup` removes the staging folder in directory order (staging.rs:88); with an unfinished file's `.state` in the
  same folder, a crash inside it may leave a `.state` without its `.part` (`CleanupOrder`).

## Model
| member | source | states |
|---|---|---|
| Protocol.EndToEnd | crates/core/src/net/recv.rs:559-677 | Over every run of handshakes, deliveries in any order and with any payload, lost streams, dropped connections, cancels, disk faults, process crashes, and of anything on other paths of the same tree, the receiver reports success only when the final path of every large file not skipped at the first handshake holds the source bytes, also while and after the staging folder is removed; a skipped file is as it was, every announced chunk was handed to `write_chunk`, every packet a writer processed matched its hash, and every writer that ran committed. |
| Protocol.ResumeSafety | crates/core/src/disk/writer.rs:61-220 | In every state of every run, also between two operations of one turn (inside `commit`) and inside a torn write, a `.state` implies a `.part` of full length holding the source bytes of every chunk whose bit loads as set, and never decodes to a complete bitmap (except beside a file skipped in Sync mode, whose staging files are not looked at). |
| Protocol.HandshakeTouchesNothing | crates/core/src/protocol/manifest.rs:152-244 | No handshake of any run changes the tree: the three `state.all()` branches that create an empty file never fire. |
| Protocol.BoundedLoss | crates/core/src/disk/writer.rs:61-107 | At every head of the writer loop of a staged file the chunks known only in memory number at most the save counter, which is below 16; a writer that ended by close or cancel left disk and memory bitmaps equal. |
| Protocol.ResumeExact | crates/core/src/net/send.rs:334-383 | After a writer ended by close or cancel, the next handshake asks for exactly the chunks of that file it had not stored. |
| Protocol.ResumeCompletes | crates/core/src/net/send.rs:160-215 | From the tree left by any run, however it was interrupted, the next round, whatever order its chunks arrive and its writers turn in, can only be cut short or end in success, within a bounded number of steps. |
| Protocol.MismatchSticks | crates/core/src/net/recv.rs:605-668 | Once a writer has met a hash mismatch or an I/O error, no continuation without a new handshake ends in success. The error of a mismatch is itself dropped, as it comes under the token it has cancelled; the token alone fails the round. |
| Protocol.SmoothSucceeds | crates/core/src/net/recv.rs:570-677 | Every run of intact arrivals, writer turns and the end of the round, in any order and with queues of any length, is bounded by a measure of the state it starts from, stays unflagged, and if it cannot be continued it has ended in success. |
| Protocol.RunKeeps | crates/core/src/net/recv.rs:559-677 | The system invariant holds in every state of every run. |
| Protocol.StepKeeps | crates/core/src/net/recv.rs:559-677 | Each of the thirteen kinds of step keeps the system invariant. |
| Protocol.HandshakeKeeps | crates/core/src/net/recv.rs:376-422 | A handshake rebuilds sessions and task list from disk, keeps the invariant, and leaves every disk as it was. |
| Protocol.HandshakeTasks | crates/core/src/net/send.rs:364-383 | The tasks of a round are exactly the unset bits of the bitmaps the receiver sent. |
| Protocol.RoundGivenUp | crates/core/src/net/recv.rs:630-668 | A writer that ended without a commit was flagged, so its round is no success, and a restart would read back its bitmap. |
| Protocol.ArriveKeeps | crates/core/src/disk/writer.rs:259-271 | `write_chunk` keeps the invariant: the first packet spawns the writer, a writer that has ended swallows the packet. |
| Protocol.ArriveCovered | crates/core/src/disk/writer.rs:259-271 | A delivered chunk is either awaited no more or in the queue of its writer: every chunk missing in memory stays on its way. |
| Protocol.TurnKeeps | crates/core/src/disk/writer.rs:61-110 | A writer turn, whatever the event, keeps the invariant of the whole system. |
| Protocol.InsideTurn | crates/core/src/disk/writer.rs:61-110 | Every disk state inside a turn keeps the resume invariant of its file. |
| Protocol.FaultKeeps | crates/core/src/disk/writer.rs:70-94 | An I/O error that ends a writer anywhere inside its turn keeps the invariant. |
| Protocol.CrashKeeps | crates/core/src/disk/writer.rs:61-220 | A crash of the receiver that catches every file anywhere inside its turn keeps the invariant. |
| Protocol.FlagKeeps | crates/core/src/net/recv.rs:570-603 | Lost streams, cancelled arms, dropped connections and cancels keep the invariant. |
| Protocol.NothingLeft | crates/core/src/net/recv.rs:570-637 | With nothing awaited and nothing queued, an unflagged round has every live bitmap complete. |
| Protocol.FinishKeeps | crates/core/src/net/recv.rs:605-668 | A round that reports no error has every file finished, with no `.state` left, and all announced chunks handed over. |
| Protocol.CleanKeeps | crates/core/src/disk/staging.rs:86-97 | Removing anything in the staging folder, in any order and stopping anywhere, harms no final file and misleads no later resume. |
| Protocol.NoSuccess | crates/core/src/net/recv.rs:605-668 | The same from any state with a failed writer, reachable or not: what carries it on is that a session stays failed and the token stays cancelled. |
| Protocol.GentleStep | crates/core/src/net/recv.rs:570-677 | Each such step lowers the measure (twice the awaited chunks plus the queued packets), and leaves an unflagged round or a success. |
| Protocol.NotStuck | crates/core/src/net/recv.rs:570-677 | In an unflagged live round such a step is always possible. |
| Protocol.SuccessInReach | crates/core/src/net/recv.rs:570-677 | So from every unflagged live round success can be reached. |
| Protocol.Reopened | crates/core/src/net/send.rs:334-383 | A handshake asks for exactly the chunks the session that left the disk had not stored. |
| Protocol.HandshakeQuiet | crates/core/src/protocol/manifest.rs:137-247 | On the trees of a run no file needs a disk operation at the handshake, and each is parsed as if it were alone. |
| Protocol.ActMoves | crates/core/src/disk/staging.rs:31-59 | With separate paths, an operation of one file moves what that file sees as its trace says, and nothing that another file sees. |
| Protocol.CrashMoves | crates/core/src/disk/writer.rs:61-220 | A crash with every file inside a turn of its own leaves each as far as its own turn had got. |
| Protocol.ElsewhereKeeps | crates/core/src/disk/writer.rs:28-47 | Whatever is written to or removed from paths no large file uses keeps the invariant. |
| Protocol.SameNameLoses | crates/core/src/protocol/manifest.rs:277-307 | Two files of one path: a turn that commits the second leaves its bytes at the final path of the first, whose session is as before. |
| Protocol.DisturbedFails | crates/core/src/net/recv.rs:570-668 | After a lost stream, a dropped connection, a cancel, a chunk of an unknown file or index, no continuation without a new handshake ends in success. |
| Protocol.FlagSticks | crates/core/src/net/recv.rs:570-668 | The same from any state with a kept error or the token set, reachable or not. |
| Protocol.FaultMoves | crates/core/src/disk/writer.rs:70-94 | An I/O error leaves its file as far as the turn had got and ends its writer; every other file and session is as it was. |
| Protocol.CleanedUp | crates/core/src/disk/staging.rs:86-97 | The clean-up run to its end leaves nothing in the staging folder, no `.part` or `.state` of any file, and everything else as it was; the round is then over. |
| Whole.WholeTransfer | crates/core/src/net/recv.rs:549-557 | Small files first, then any run of the large ones that reports success: every small file that arrived is at its final path, every large file not skipped is the source, a skipped one is as it was, and everything outside the transfer is as it was, as long as no two of them meet. |
| Whole.WholeManifest | crates/core/src/net/recv.rs:549-557 | Under the same conditions, for every small file of the manifest: a skipped one is as it was, an empty one is empty at its resolved path, any other has the sent bytes at the final path of the path it was sent under. |
| Whole.RunSpares | crates/core/src/net/recv.rs:559-677 | Over every run, what is at a path no large file uses, outside the staging folder, stays as it was unless others write it. |
| Whole.RunWrote | crates/core/src/disk/writer.rs:28-47 | The last write of others to such a path is what is there at the end of the run. |
| Whole.StepSpares | crates/core/src/net/recv.rs:559-677 | No step but a write to that very path changes it. |
| Whole.SmallMeetsLarge | crates/core/src/disk/writer.rs:34-41 | A small file written at the path a large file was resolved to shows as that large file. |
| Arrivals.SenderOkIff | crates/core/src/net/send.rs:166-214 | In an undisturbed round run to its end every announced chunk has been sent, so the sender reports success, and the receiver succeeds if and only if every payload arrived intact. |
| Arrivals.SuccessIntact | crates/core/src/disk/writer.rs:74-91 | In every run, when the receiver reports success, exactly the announced chunks have arrived, each with the bytes of the source. |
| Arrivals.RunTraced | crates/core/src/disk/writer.rs:74-107 | In every run, a queued packet has arrived as it is, whatever arrived for a chunk whose bit is set is that chunk, and an awaited chunk has not arrived. |
| Arrivals.ArrivedStays | crates/core/src/disk/writer.rs:259-271 | What has arrived stays as it arrived, up to the next handshake. |
| TwoSelections.SuccessWithWrongBytes | crates/core/src/protocol/manifest.rs:263-307 | Two single-chunk files of one path, sent into an empty place in Overwrite mode: some run of the handshake, both deliveries, both turns and the end of the round reports success with the second file's bytes at the final path of the first. |
| TwoSelections.OneByteLost | crates/core/src/protocol/manifest.rs:263-307 | Such a transfer exists, with different sources, in an empty tree. |
| TwoSelections.StoresFile | crates/core/src/disk/writer.rs:61-110 | The delivery and the turn of a single-chunk file leave it committed and exact, and only its own session changed. |
| TwoSelections.BothAsked | crates/core/src/protocol/manifest.rs:137-247 | With nothing there, the handshake asks for both files of one path. |
| Tree.IndependentIff | crates/core/src/disk/staging.rs:17-97 | No store to one file shows in what another sees, and no clean-up touches a final file, if and only if the paths are separate. |
| Tree.PerformMoves | crates/core/src/disk/staging.rs:31-59 | With separate paths a trace of one file is seen by that file as it says and by no other. |
| Tree.SweepSpares | crates/core/src/disk/staging.rs:86-97 | Removing anything in the staging folder spares a final file outside it. |
| Tree.SharedPath | crates/core/src/disk/staging.rs:31-59 | Two files that share any of their three paths: a store to one shows in the other. |
| Tree.SweepTakes | crates/core/src/disk/staging.rs:86-97 | Removing paths of the staging folder can take a final file from some tree if and only if its path lies in that folder. |
| CrashSafety.StepSafe | crates/core/src/disk/writer.rs:61-110 | One turn of the loop: every disk state passed through keeps the resume invariant, and the session ends with what its status promises (running: backed bitmap and bounded loss; committed: exact file, no `.state`, mtime restored when that call worked; drained or cancelled: nothing lost). |
| CrashSafety.PacketSafe | crates/core/src/disk/writer.rs:76-98 | The same for an intact chunk, which always ends with its bit set, running or committed. |
| CrashSafety.OpenSafe | crates/core/src/disk/writer.rs:136-161 | Opening a staged file gives `.part` its full length before any bitmap can vouch for it. |
| CrashSafety.WriteKeepsChunk | crates/core/src/disk/writer.rs:165-166 | Writing source bytes at their own place never spoils an exact chunk. |
| CrashSafety.TornWriteSafe | crates/core/src/disk/writer.rs:165-166 | Every byte prefix of a chunk write keeps what the saved bitmap claims. |
| CrashSafety.WriteStagedSafe | crates/core/src/disk/writer.rs:163-174 | All torn prefixes are safe, and the whole write makes the chunk exact beside all chunks claimed before. |
| CrashSafety.WriteSmallSafe | crates/core/src/disk/writer.rs:130-166 | A single-chunk file, written in place over nothing longer, ends exact, and no torn prefix of the write meets the skip rule wrongly. |
| CrashSafety.WriteSafe | crates/core/src/disk/writer.rs:125-178 | Opening and writing together: `.state` untouched, every state passed through safe, the chunk on disk. |
| CrashSafety.SaveSafe | crates/core/src/disk/writer.rs:112-123 | Saving an incomplete bitmap: even a torn `.state` claims no more than `.part` holds and never everything; the whole save is read back bit for bit. |
| CrashSafety.CommitSafe | crates/core/src/disk/writer.rs:188-220 | `commit` removes `.state` before it renames, so no crash inside leaves a `.state` without its `.part`; at the end neither is there, the final bytes are the source, with its modification time or, if that fails, the clock's. |
| CrashSafety.CompleteSafe | crates/core/src/disk/writer.rs:88-91 | A complete, backed bitmap means the source bytes, so the commit is exact. |
| CrashSafety.IncompleteSafe | crates/core/src/disk/writer.rs:93-97 | An incomplete file goes on with the loss bound kept, by saving when the interval is reached. |
| CrashSafety.AfterSafe | crates/core/src/disk/writer.rs:82-97 | After a stored chunk: commit if and only if complete, and either way the loop promises hold again. |
| CrashSafety.EndSafe | crates/core/src/disk/writer.rs:67-107 | Cancel and close of an incomplete file lose nothing: a restart reads back the bitmap the session had. |
| CrashSafety.SavedAgrees | crates/core/src/disk/writer.rs:93-107 | With the save counter at zero the saved and the in-memory bitmap are the same, so skipping the save is right. |
| CrashSafety.AllChunksExact | crates/core/src/disk/writer.rs:180-182 | If every chunk is exact the file is: the chunk ranges leave no byte out. |
| Disk.EveryPrefix | crates/core/src/disk/writer.rs:112-166 | Every prefix of the bytes of a write, and an empty `.state`, is a state a crash can leave. |
| Writer.ReceiveSession.RunWriterLoop | crates/core/src/disk/writer.rs:61-110 | The in-place loop, for every sequence of events, ends with the session and the complete disk history that `Run` gives; a rejected chunk leaves the token set, and a set token stays set. |
| Writer.ReceiveSession.Turn | crates/core/src/disk/writer.rs:65-107 | One turn does exactly what `Step` says, to the fields and to the disk. |
| Writer.ReceiveSession.OnPacket | crates/core/src/disk/writer.rs:76-98 | The packet arm: reject and cancel, or write, count, then commit or save. |
| Writer.ReceiveSession.WriteChunkInternal | crates/core/src/disk/writer.rs:125-178 | False exactly on a hash mismatch, then with nothing changed; otherwise the file is open, the bytes are at the chunk offset and the bit is set (a bit out of range panics after the write). |
| Writer.ReceiveSession.OpenFile | crates/core/src/disk/writer.rs:136-161 | First packet: open without truncation, set the length only when not resumed and staged, then count as resumed. |
| Writer.ReceiveSession.SaveState | crates/core/src/disk/writer.rs:112-123 | Nothing for a single-chunk file; else truncate and write the raw bitmap. |
| Writer.ReceiveSession.Commit | crates/core/src/disk/writer.rs:184-220 | Close, remove `.state` if there, rename a staged `.part`, set the mtime, in this order. |
| Writer.ReceiveSession.CommitOrSave | crates/core/src/disk/writer.rs:88-96 | Commit when complete, save and reset the counter at 16, else carry on. |
| Writer.StepStored | crates/core/src/disk/writer.rs:82-97 | A good packet is the chunk write followed by the commit or save, both in one history. |
| Writer.SaveEvery16 | crates/core/src/disk/writer.rs:95-107 | A stored packet that does not complete the file rewrites `.state` with the sixteenth chunk since the last save, and does not touch it otherwise. |
| Writer.EndWrites | crates/core/src/disk/writer.rs:70-94 | A close saves only when chunks were stored since the last save, a cancel whenever the file has been opened or found on disk, neither for a complete or a single-chunk file; what is saved is the whole bitmap. |
| Bitmap.LoadRaw | crates/core/src/disk/writer.rs:112-121 | Saving a bitmap and loading it at the same length is the identity, whatever the padding bits hold. |
| Bitmap.LoadPrefix | crates/core/src/protocol/types.rs:149-161 | Any byte prefix of a saved file loads as exactly the bits stored in it and false after them. |
| Bitmap.UnpackPack | crates/core/src/disk/writer.rs:116 | Packing bits least significant first into bytes and unpacking them is the identity. |
| Bitmap.Load | crates/core/src/protocol/types.rs:150-157 | A loaded bitmap has the expected length for any file length, bit i being bit i mod 8 of byte i / 8. |
| Chunks.Tiling | crates/core/src/disk/reader.rs:47-67 | Every byte of a file lies in exactly one chunk, number p / chunk_size: the ranges are disjoint and cover the file. |
| Chunks.ChunkInBounds | crates/core/src/protocol/types.rs:84-92 | Inside the bitmap no u64 product or difference wraps, `get_chunk_size` is the length of a non-empty range, and the range ends inside the file. |
| Chunks.NumChunksBounds | crates/core/src/protocol/types.rs:130 | `div_ceil` is the one count n with (n-1)*c < size <= n*c; staged files have at least two chunks, other non-empty ones exactly one. |
| Chunks.Conservation | crates/core/src/protocol/types.rs:176-186 | For any bitmap, missing plus completed bytes of the first k chunks are the first k chunks of the file. |
| Chunks.ConservationWhole | crates/core/src/protocol/types.rs:176-186 | For any bitmap, missing plus completed bytes are the size. |
| Instruction.ParseConserves | crates/core/src/protocol/types.rs:128-186 | After `new`, every branch of `load_state_from_disk` and the Sync skip, `remaining_bytes` is the sum of the unset chunks, and with the completed ones makes the size. |
| Instruction.ParseSafe | crates/core/src/protocol/manifest.rs:137-247 | On any disk a writer can leave, `parse` touches nothing, takes a file for finished only when its final bytes are the source, and otherwise starts a session all of whose claims are on disk. |
| Instruction.ParseKept | crates/core/src/protocol/manifest.rs:152-244 | A file meeting the skip rule, without a `.state` or in Sync mode, is finished at once and left alone. |
| Instruction.ParseRetained | crates/core/src/protocol/types.rs:149-161 | What an ordinary interruption left is read back bit for bit in every mode. |
| Instruction.SyncSkips | crates/core/src/protocol/manifest.rs:192-218 | A committed file with its mtime restored is skipped by a later Sync, with nothing remaining. |
| Instruction.JobInstruction.constructor | crates/core/src/protocol/types.rs:129-140 | Nothing received, all bytes remaining. |
| Instruction.JobInstruction.GetRemainingSize | crates/core/src/protocol/types.rs:176-186 | The loop sums the lengths of the unset chunks, below the u64 bound. |
| Instruction.JobInstruction.LoadStateFromDisk | crates/core/src/protocol/types.rs:142-174 | The in-place update gives the instruction that `Loaded` describes in all three cases. |
| Instruction.ParseOne | crates/core/src/protocol/manifest.rs:152-246 | The body of the large-file loop performs what `ParseLarge` says, in the three modes. |
| Instruction.ParseLargeFiles | crates/core/src/protocol/manifest.rs:137-249 | One instruction per large file, in manifest order, each from the tree the ones before it left, whatever paths they share. |
| Instruction.ParseAllConserves | crates/core/src/protocol/types.rs:128-186 | Every instruction of the loop conserves bytes, whatever paths the files share. |
| Instruction.ParseAllQuiet | crates/core/src/protocol/manifest.rs:137-247 | Where no file needs a disk operation, each is parsed as if it were alone and the tree stays. |
| Instruction.ParseTouches | crates/core/src/protocol/manifest.rs:152-244 | `parse` writes exactly for an empty file or one whose `.state` is all ones, in Unique mode only where no final file is, in Sync mode unless the one there is taken for the finished file; it leaves an empty final file. |
| Handshake.Agreement | crates/core/src/net/send.rs:129-146 | With aligned ids, in any map order: the task list holds each unset chunk once and nothing else, its length is the number of unset bits, and sender and receiver report the same bytes done with neither `saturating_sub` saturating. |
| Handshake.AlignmentNeeded | crates/core/src/net/send.rs:364-383 | In any map order `flatten` asks for exactly the missing chunks, under all bitmaps, if and only if every large file's id is its position. |
| Handshake.MisalignedAsks | crates/core/src/net/recv.rs:384-393 | For a large file whose id is not its position: bitmaps under which a file the receiver has is asked for again. |
| Handshake.Flatten | crates/core/src/net/send.rs:364-383 | The nested loops give the chunks of all sessions without repeats, except those whose position in the sent bitmaps exists with the bit there and set. |
| Handshake.FlatExact | crates/core/src/net/send.rs:364-383 | The same for any map order: a chunk is left out if and only if its bitmap and its bit exist and the bit is set. |
| Handshake.GetRemainingBytes | crates/core/src/net/send.rs:129-137 | The loop adds the chunk sizes of the flattened tasks. |
| Handshake.FlatCounts | crates/core/src/net/send.rs:129-137 | Length and bytes of the task list are per-file sums of unset bits and missing bytes. |
| Handshake.SumAnyOrder | crates/core/src/net/send.rs:139-141 | A sum over the session map is independent of its iteration order. |
| Handshake.FreshAsksAll | crates/core/src/net/send.rs:364-383 | A receiver that has nothing is asked for every chunk of every session, whatever the ids. |
| Limits.CommitCrash | crates/core/src/disk/writer.rs:187-204 | A crash inside `commit` is harmless if and only if the old final file does not meet the skip rule, or is the source. |
| Limits.SmallWrite | crates/core/src/disk/writer.rs:130-166 | The in-place write of a single-chunk file is exact if and only if nothing longer was at the final path. |
| Limits.FreshStart | crates/core/src/disk/writer.rs:145-158 | Without `.state` and with no final file meeting the skip rule, a file may enter the protocol if and only if it is staged or meets nothing longer. |
| Limits.StaleSave | crates/core/src/disk/writer.rs:112-123 | A second writer that saves after another has committed breaks crash safety: `.state` without `.part`. |
| Limits.CleanupOrder | crates/core/src/disk/staging.rs:86-97 | Removing `.part` first is crash-safe if and only if no `.state` is left; removing `.state` first always is. |
| Limits.SyncWrite | crates/core/src/disk/writer.rs:130-166 | In Sync mode the in-place write of a single-chunk file is crash-safe at every byte if and only if the write time is not the source's mtime, or the old file has another length, or it agrees with the source from the second byte on. |
| Limits.OverwriteRestarts | crates/core/src/protocol/manifest.rs:172-189 | Overwrite starts from nothing if and only if there is no `.state` or no bit of it is set. |
| Limits.OverwriteResumes | crates/core/src/protocol/types.rs:149-161 | Two chunks of one byte, the first saved: Overwrite asks for the second only. |
| Limits.FinishedIff | crates/core/src/protocol/manifest.rs:152-227 | Without a `.state` a file is taken for finished if and only if a file of its length is there in Unique mode, of its length and time in Sync mode; never in Overwrite mode. |
| Window.StreamChunks | crates/core/src/net/send.rs:245-312 | Every move keeps the window, which is full whenever one is joined unless all have been spawned; the j-th join takes the j-th answer; Ok comes if and only if each of the first n answers is a chunk sent under a clear token, and then all n tasks were spawned in order and joined once each; an error comes with the first answer that is not. |
| Window.WindowBounded | crates/core/src/net/send.rs:262-284 | At every moment of a run at most 32 chunks are in flight, all of them already spawned. |
| Window.JoinedOnce | crates/core/src/net/send.rs:278-286 | A spawned task is in flight or was joined at exactly one moment, and no other was ever joined. |
| Framing.CutStream | crates/core/src/net/recv.rs:473-506 | A stream cut after any number of bytes, with any count: exactly the whole records, as far as counted, are delivered, and it succeeds if and only if there were as many as counted. |
| Framing.RoundTrip | crates/core/src/net/send.rs:385-406 | Reading back what was written gives the same records in order if and only if every file still had its stated size. |
| Framing.MisSized | crates/core/src/net/send.rs:399-400 | One record whose data length is not its `size` field and the records do not come back. |
| Framing.ReadCut | crates/core/src/net/recv.rs:480-489 | No proper prefix of a record reads as a record. |
| Framing.ReadLength | crates/core/src/net/recv.rs:487-489 | The data read has the length of the size field, whatever was sent. |
| Framing.WriteRecord | crates/core/src/net/send.rs:392-400 | Five writes append one encoded record. |
| Framing.WriteRecords | crates/core/src/net/send.rs:385-406 | The loop writes the records in order. |
| Framing.ReadRecords | crates/core/src/net/recv.rs:467-507 | The counted loop delivers what `ReadAll` gives; a cancelled arm at record k stops there with Ok. |
| Framing.CutAnywhere | crates/core/src/net/recv.rs:514-545 | A small-file stream cut after any byte, whatever count it announces, succeeds if and only if it was cut inside the count, when nothing is delivered, or holds as many whole records as announced; it delivers the whole records, as far as counted. |
| Framing.ProcessSmallFiles | crates/core/src/net/recv.rs:509-547 | Without a whole count the loop is not entered and the result is Ok; otherwise the counted loop runs. |
| Framing.OnTheWire | crates/core/src/net/send.rs:392-402 | A record on the wire is path length, path, modification time, size and data, the numbers in eight bytes, highest first. |
| Framing.EightBytes | crates/core/src/net/send.rs:392-402 | A `u64` is what eight bytes hold. |
| SmallFiles.SmallFilesArrive | crates/core/src/net/send.rs:217-249 | Readers finish in any order and drop files, and the stream is cut anywhere behind the count: if the counted records are all read, then every wanted file has arrived once, and at any path there is the last file sent under it, or if none was, what the handshake left there; renamed or not, and whatever names two files share. |
| SmallFiles.ParseSmallFiles | crates/core/src/protocol/manifest.rs:104-135 | The loop gives the bits and the store of `ParsedSmall`, which `ParsedSmallIs` describes by modes. |
| SmallFiles.ParsedSmallIs | crates/core/src/protocol/manifest.rs:113-134 | The bit of a file is set in Overwrite mode if and only if it is empty, in Unique mode also when its path exists, in Sync mode when a file of its length and time is there; an empty file not skipped is created, at any other resolved path all stays as it was. |
| SmallFiles.WantedIs | crates/core/src/net/send.rs:219-223 | The sender selects exactly the unset places, once each. |
| SmallFiles.Pigeonhole | crates/core/src/disk/reader.rs:70-103 | Distinct arrivals, as many as wanted, are all of them: no reader dropped a record. |
| SmallFiles.WriteSmallFilesToDisk | crates/core/src/disk/writer.rs:28-47 | The loop stores every payload under the path it arrived with. |
| SmallFiles.StoredHolds | crates/core/src/disk/writer.rs:34-41 | The last payload of a path is in the store at the end, with its modification time if setting it worked and the clock's if not. |
| SmallFiles.DeliveredIff | crates/core/src/net/send.rs:392-397 | A wanted file is at its resolved path if and only if the last file sent under that very path has its bytes, or none was and they were there already: of two selections of one name the one that arrives later survives, and the other exactly when the bytes agree. With distinct sent paths an unrenamed file always is. |
| SmallFiles.StoredAt | crates/core/src/disk/writer.rs:34-41 | Storing any arrivals leaves at any path the last one sent under it, or what was there. |
| SmallFiles.RoundKeeps | crates/core/src/disk/writer.rs:38 | A round broken off anywhere leaves a small file such that the next handshake judges it rightly, if and only if it was not, in Unique mode, broken off inside the write of that file. |
| SmallFiles.SmallFilesResume | crates/core/src/protocol/manifest.rs:104-135 | After any number of broken-off rounds, a round that stores all wanted files leaves the sent bytes in every small file not wrongly skipped to begin with, unless in Unique mode an earlier round broke off inside its write. |
| SmallFiles.OnlySent | crates/core/src/net/send.rs:392-397 | Without two files sent under one path, a file arrives under a path if and only if it is wanted and sent under that path. |
| SmallFiles.UniqueParse | crates/core/src/protocol/manifest.rs:100-135 | In Unique mode the handshake leaves every existing file as it was, and wants only files whose resolved path is free. |
| SmallFiles.OverwritesIff | crates/core/src/disk/writer.rs:28-47 | In Unique mode the small files of a transfer overwrite nothing if and only if no wanted file is sent under the path of an existing file of other bytes; a file that is, is a renamed one. |
| SmallFiles.RenamedOverwrites | crates/core/src/net/send.rs:392-397 | A folder "P" with an "x" is there, another is sent: "P (1)/x" is free, and the existing "P/x" is overwritten. |
| SmallFiles.OverwriteDelivers | crates/core/src/protocol/manifest.rs:113-134 | In Overwrite mode a full round leaves the sent bytes in every unrenamed file that is not empty, whatever was there before. |
| SmallFiles.SyncSkipsStored | crates/core/src/disk/writer.rs:36-41 | A small file stored with its modification time set is skipped by the next handshake in Sync mode. |
| SmallFiles.SizesMustHold | crates/core/src/net/send.rs:392-402 | What the sender puts on the stream is read back if and only if every file sent still has the size of the manifest. |
| UniquePath.FindUniquePath | crates/core/src/util.rs:30-58 | Terminates on every finite directory with a free name: the name itself if free, else the one with the smallest free counter, found within as many tries as the directory has names. |
| UniquePath.CandidateInjective | crates/core/src/util.rs:44-49 | Different counters give different names. |
| UniquePath.TriesBounded | crates/core/src/util.rs:44-57 | The names tried so far are distinct, taken and not the original, so fewer than the directory holds. |
| UniquePath.OneResolution | crates/core/src/util.rs:30-58 | The specification of the search determines its result. |
| UniquePath.ExtensionStart | crates/core/src/util.rs:6-28 | The cut is inside the name, at a dot, or at the end when no dot follows the first character. |
| UniquePath.PlainExtension | crates/core/src/util.rs:6-15 | No dot or only a leading one: no extension; a single inner dot starts it. |
| UniquePath.ArchiveExtension | crates/core/src/util.rs:12-27 | With two dots: one of the nine compression suffixes, in any case, behind one to four bytes of UTF-8 takes that segment along, any other name is cut at its last dot. |
| UniquePath.PathKept | crates/core/src/protocol/manifest.rs:20-44 | A reconnect finds the path the first round chose, if and only if the mode is not Unique, or staging data lies at one of the two places looked at and the name was not changed, or none does and the chosen name has not been created yet. |
| UniquePath.NamesCollide | crates/core/src/protocol/manifest.rs:20-44 | Two targets of one transfer get the same name if and only if one is renamed to the free name of the other, or both are renamed and one name is nested in the other with the first free counters of both: with extensions `s` and `t`, `a` is `q (l)us`, `b` is `qu (k)s` and `t` is `u (k)s`. |
| UniquePath.CandidatesApart | crates/core/src/util.rs:44-49 | Two renamed targets can share a candidate only when their extensions differ in length. |
| UniquePath.TwoTargetsOneName | crates/core/src/protocol/manifest.rs:20-44 | With "x.txt" taken and "x (1).txt" free, the targets of these two names both get the second. |
| UniquePath.FolderAndFileOneName | crates/core/src/protocol/manifest.rs:20-44 | With both taken, the folder "q (1).r" and the file "q.r (1)" are renamed to the same free name. |
| UniquePath.TargetFree | crates/core/src/protocol/manifest.rs:20-44 | The chosen top-level path is free if and only if no staging data was found under the original name, or nothing has that name. |
| UniquePath.FolderStagingIs | crates/core/src/protocol/manifest.rs:22-26 | The first place looked at is the staging folder of a transfer if and only if it has a folder of its own of exactly that name. |
| UniquePath.FileStateIs | crates/core/src/protocol/manifest.rs:27-30 | Without such a folder, the second place is the `.state` path of the top-level file of that name and of no other file. |
| UniquePath.FolderAlone | crates/core/src/protocol/manifest.rs:20-44 | A folder sent alone keeps its path over a reconnect in Unique mode if and only if it was not renamed. |
| UniquePath.FolderAmongSeveral | crates/core/src/protocol/manifest.rs:20-44 | A folder among several targets, once the handshake has made it, gets another name on a reconnect in Unique mode, renamed or not. |
| UniquePath.FileAtTop | crates/core/src/protocol/manifest.rs:20-44 | A top-level file keeps its path if and only if it was not renamed and its `.state` is there, or its final file is not. |
| UniquePath.CandidatesMeet | crates/core/src/util.rs:44-49 | The candidates of two different names with counters k and l coincide if and only if one name is nested in the other with these counters. |
| UniquePath.FolderRenamed | crates/core/src/util.rs:31-60 | With a folder "P" there, a sent "P" becomes "P (1)". |
| UniquePath.TarGz | crates/core/src/util.rs:12-27 | "a.tar.gz" and "A.TAR.GZ" are cut behind the "a", "a.tar.zip" before its last dot, and so is a name whose middle segment is three letters of two bytes. |
| UniquePath.LowerIs | crates/core/src/util.rs:12-27 | Lower case is ASCII lower case: the 26 capitals and nothing else. |
| UniquePath.Utf8Sizes | crates/core/src/util.rs:23 | A segment is measured in bytes: one character each of one, two, three and four. |
| UniquePath.ParseDecimal | crates/core/src/util.rs:44-49 | A counter is written in decimal digits without a leading zero. |
| Manifest.Build | crates/core/src/protocol/manifest.rs:255-322 | The loop gives both lists, the session map of the large ones and the path map of the small ones. |
| Manifest.SmallPathsIs | crates/core/src/net/send.rs:228-236 | Every small file the sender selects has its path in the map, under its id: the `expect` cannot fail. |
| Manifest.Ids | crates/core/src/protocol/manifest.rs:273-307 | Ids are places in the walk, increasing in each list, and fix the position; every field is that of the walk entry; the small list holds exactly the files of at most 65536 bytes. |
| Manifest.PlaceOf | crates/core/src/protocol/manifest.rs:273-307 | Every entry of the walk is in its list under its place as id, with its path, size and modification time and chunks of 4 MiB, behind exactly the earlier entries of its kind. |
| Manifest.ComesFrom | crates/core/src/protocol/manifest.rs:273-307 | Each entry of a list is, field by field, a walk entry of that kind. |
| Manifest.AlignedIff | crates/core/src/protocol/manifest.rs:294-306 | Ids are aligned if and only if no small file precedes a large one in the walk. |
| Manifest.RewriteRelativePath | crates/core/src/protocol/manifest.rs:71-87 | For every iteration order of the map, the top-level component is renamed and nothing else. |
| Manifest.OnlyTopMatches | crates/core/src/protocol/manifest.rs:73-81 | The two string tests hold for a slash-free target exactly when it is the top-level component. |
| Manifest.RenamedCollide | crates/core/src/protocol/manifest.rs:71-87 | Two files resolve to one path if and only if their targets got the same new name and they have the same place below them. |
| Manifest.TwoOfOneName | crates/core/src/protocol/manifest.rs:263-307 | Two large files sent under one path, as from two selections of one name, are never separate. |
| Manifest.TargetsMeet | crates/core/src/protocol/manifest.rs:71-87 | Two targets of one new name make files of one place below them not separate. |
| Manifest.PrefixPlaced | crates/core/src/protocol/manifest.rs:48-69 | With the prefix of `get_top_level_prefix`, every resolved path lies below the folder of its transfer. |
| Manifest.RenamedFolder | crates/core/src/protocol/manifest.rs:71-87 | "P/x" then resolves to "P (1)/x". |
| Manifest.PrefixIff | crates/core/src/protocol/manifest.rs:48-69 | A transfer has a folder of its own, that of its target under its new name, if and only if it has one target and some file lies below it. |
| Manifest.RenamedIs | crates/core/src/protocol/manifest.rs:71-87 | What is behind the top-level component stays as it is, and a path whose top-level component is not mapped does altogether. |
| Staging.PathsCollide | crates/core/src/disk/staging.rs:31-54 | Two files share `.part` or `.state` if and only if their staging-relative paths are the same; no `.part` is a `.state`. |
| Staging.OneFolder | crates/core/src/disk/staging.rs:31-59 | Distinct files under one folder target share no staging path and no final path, and none of the three with each other unless one comes from a staging folder there. |
| Staging.SeparateIff | crates/core/src/disk/staging.rs:17-59 | Files are separate if and only if their resolved relative paths differ and none has the name of the staging folder in the staging folder's place. |
| Staging.StagingPlace | crates/core/src/disk/staging.rs:17-59 | `.part` and `.state` lie in the staging folder; the final path does if and only if the relative path goes through that name in that place. |
| Staging.SentStagingFolder | crates/core/src/disk/staging.rs:17-59 | A sent folder that holds a staging folder of its own: one of its files gets the `.part` path of another as its final path, and the files are not separate. |
| Staging.ComponentsInjective | crates/core/src/disk/staging.rs:31-40 | Relative paths with the same components are the same. |
| Receiver.Verdict | crates/core/src/net/recv.rs:605-668 | Ok if and only if the token is clear at the last look and every chunk stream and every writer ended without error: nothing passed over under a cancel is lost. |
| Receiver.Drain | crates/core/src/net/recv.rs:607-628 | With the token still clear, an error is held if and only if there was one. |
| Receiver.Reconnect | crates/core/src/net/connection_manager.rs:48-80 | The retry loop ends within 16 attempts: with the first that connects, or at the first turn that finds the token cancelled or more than 30 seconds gone by; the time reported is what the attempts slept and dialled. |
| Consent.ConsentBacked | crates/core/src/net/recv.rs:139-182 | On every interleaving, an id is in the set, and a connection is past the prompt, only if an earlier step was the user's yes to a connection of that id, or the look of one that had read that everything is accepted; the h-th handler carries the id of the h-th connection. |
| Consent.OnlyRemovals | crates/core/src/net/recv.rs:212-274 | A consented id leaves the set exactly at the end of a failed acceptance, a finished text or a complete transfer of that id. |
| Consent.StaysConsented | crates/core/src/net/recv.rs:212-274 | An id stays over every run with no such step. |
| Consent.ReconnectAccepted | crates/core/src/net/recv.rs:154-182 | However the chunk processing of a handler fails, a later connection with its id is accepted at its first look, unless a handler of that id removed it meanwhile. |
| Consent.WhenAsked | crates/core/src/net/recv.rs:147-168 | The prompt is shown if and only if auto-accept was off when read and the id is not in the set; a yes leads to acceptance, a no to the end; only an accepted connection enters its id. |
| Consent.RefusedForGood | crates/core/src/net/recv.rs:280-284 | A connection the user refused stays over and never enters its id, whatever the others do. |
| Consent.OnlyBrokenOffStay | crates/core/src/net/recv.rs:193-276 | With all connections over, an id is still in the set only if chunk processing of one of its connections failed or was cancelled. |
| Consent.InOrder | crates/core/src/net/recv.rs:139-276 | Each connection goes through its stages in order: it enters its id only after a look or a yes, is parsed only after that, waits for its close only after a text was accepted, and processes chunks only after a file was. |

## Left out

- Protocol.EndToEnd: large files only; `Whole.WholeTransfer` adds the small files of one round, `SmallFiles.SmallFilesResume` those of several; hypotheses 1-8 above apply.
- Protocol.ResumeSafety: says nothing about the staging files beside a file skipped in Sync mode, which nobody reads.
- Protocol.ElsewhereKeeps: paths none of the large files uses; a small file sent under a large file's path is `Whole.SmallMeetsLarge`.
- SmallFiles.SmallFilesArrive: file sizes do not change between manifest and reading; `RoundTrip` shows this is needed.
- SmallFiles.SmallFilesResume: files that are not renamed, and nobody else writing at their paths.
- Framing.ReadRecords: the UTF-8 check of the path and the disk thread hanging up are not modelled; paths are bytes.
- Framing.WriteRecord: a network error in the middle is a cut stream on the reading side.
- Manifest.Build: the directory walk, unreadable entries and the target list are given; a walk is a list of path, size and mtime.
- Manifest.RewriteRelativePath: targets are file names and hold no slash, as `build` makes them.
- UniquePath.FindUniquePath: the directory does not change during the search; the `i32` counter does not overflow below 2^31 taken names.
- UniquePath.PathKept: no name disappears from the directory between rounds, and what has the original name stays a file or a folder.
- UniquePath.FolderAlone: no staging data of another transfer lies at the two places; the same in `FolderAmongSeveral` and `FileAtTop`.
- Whole.WholeTransfer: the small files that arrive go to different places, none of them a large file's; nobody else writes in that round.
- Arrivals.SenderOkIff: a round without losses; the sender's own errors end in a reconnect, which is a new handshake.
- TwoSelections.SuccessWithWrongBytes: single-chunk files in Overwrite mode, the second no shorter; `SameNameLoses` is the same for one turn of any two files of one path.
- Tree.IndependentIff: a tree has no directories, so a path that would have to be both a file and a directory (an I/O error in the code) is just two paths.
- Staging.PathsCollide: a path is its sequence of components, cut at slashes, on one platform; no symbolic links or case folding.
- Handshake.GetRemainingBytes: totals over many files are unbounded integers; a transfer of 2^64 bytes is not considered.
- Writer.ReceiveSession.RunWriterLoop: I/O errors are not events of the loop but `Fault` steps of `Protocol`, at any point of a turn.
- Window.StreamChunks: a panicked send task counts as a failed send; dropping the `JoinSet` on an error aborts the tasks in flight, which the log does not show.
- Receiver.Reconnect: time is counted in whole milliseconds of sleeping and dialling.
- Channel capacity, back-pressure and the receiver's semaphore: they delay deliveries, which may happen in any order anyway.
- A receiver that reports an error while its writers still run, and a writer that outlives its round: excluded by hypothesis 4.
- QUIC, TLS, certificates, mDNS, time-outs and the tokio runtime: connections are channels that may drop, tasks are steps in any order.
- MessagePack headers and BLAKE3: headers are values, the hash is an abstract function without collisions on the chunks compared.
- Power loss, fsync and write buffering: disk operations take effect in program order, and only processes crash.
- A `.state` left by another file of the same name, and the other files of transfers running side by side in one `.tensou` folder.
- Disk-space check, permissions, directory creation, symbolic links, `is_safe_relative_path`.
- Job names, error codes and their classification: each is settled by reading one branch.
- The sender's `process_chunks` beyond what it starts (its error classification and close codes); a new round is a new handshake.
- `get_chunk` reads the file in one piece; a source that shrank fails there, which is a lost stream.
- Text transfers beyond the consent set, the GUI, the command line, configuration and the clipboard.
