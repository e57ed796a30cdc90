# Ghost Shell: the recording pipeline, modelled and proved

Ghost Shell records terminal sessions. A recorder streams output to a root daemon, which encrypts it to disk and
lets auditors follow along; recordings left in home directories are swept into a central store; a player, a tree
view and an analysis read them back. This project models those parts in Dafny and proves what they promise over
whole runs, arbitrary chunkings and crash points.

`dafny verify dfyconfig.toml` checks everything.

| modules | what they are about |
|---|---|
| Crypto, CryptoStreams | the framed encrypted stream: format, writer, reader, and the binding of each frame to its place |
| LiveTail, Closing, Session | one recorder, any number of live tailers, bounded queues, failing connections |
| FileSystem, IngestState, IngestSteps, Ingest, Sweeps | the sweep into the central store, shared with running sessions, over a file system that may crash between any two calls |
| Scrollback, ScrollbackLines, CastWriter, LineRing | streaming text machines against whole-input specifications |
| Timeline, Player | cleaned event times, and the replay player over its modes |
| Correlate | the output captured for each failed command |
| Text, Sorting, Spans, Retry | command spans, their order, and retry loops |
| SpanTree, TreeWalk | the process tree, its displays, and who is in them |
| Registry, Handshake | session slots, live ids, and the REC handshake between recorder and daemon |
| Sshd | enabling the sshd drop-in and backing out of it |
| Common | sequences and options |

Objects that the program updates in place are classes here, with the loops and branches of the program; each
method is proved against a function of the old state, and what the program promises is proved about that function.
The concurrent parts (LiveTail, Handshake) are machines whose steps are the critical sections and single effects of
the goroutines, and the theorems are about every interleaving: Closing has what a session owes its clients when it
drops them, fails or ends. Session has the same critical sections as methods, and shows that each is the step of
LiveTail it stands for.
In Ingest every system call first lets others act, users at home and the daemon's own sessions in the store, and may
fail or be the last before a crash; a crash lets each directory entry that was not synced, and all data that was not,
fall out either way. The comment on WriteFileAtomic puts the directory sync before the rename; the code, followed
here, has it after.

The cipher is the ideal of section 2 of RFC 5116: it opens exactly what was sealed, with the same nonce and
associated data; reading back and sweeping only take that what was sealed opens. Times are real numbers; the stamps
of a file may also be infinite or not numbers. One reading of the clock stands for all those within one turn of the
player. UTF-8 is that of section 4 of RFC 3629.

Five promises turned out to need a condition, and each is proved with its exact condition and a run that shows why:

- Position binding holds if and only if no position of the stream is sealed for another plaintext, and fails after a
  Write is retried on a torn frame (`Crypto.BindingExact`, `CryptoStreams.RetriedWrite`).
- The scrollback takes a CR at the end of a chunk for one that overwrites the line, and so loses a line whose CR and LF
  come in different chunks (`Scrollback.ChunkIndependence`).
- A sweep replaces a recording when two home directories share a base name, or when someone has named a local file like
  a recording in the store; it harms nothing exactly when recordings filed under one name are the same
  (`Ingest.SweptReadableExactly`, `Ingest.TwoHomesRun`, `Ingest.PlantedRun`). And it can
  lose one if the directory sync fails, exactly when the name might be new on disk (`Ingest.DirSyncNeeded`).
- The player's key `0` seeks without reading the clock. After a resize at the very start, handled before a timer that is
  already due, it leaves output of a later time on the screen, and the next seek forward then lands wrong too; without
  a resize it cannot (`Player.Player.GoToStart`, `Player.Player.Play`, `Player.ZeroKeyThenSeek`).
- Enabling the sshd drop-in takes back a rejected configuration, but a drop-in write that fails half way leaves a piece
  behind, which a later run takes for one an administrator made (`Sshd.Files.Enable`, `Sshd.HalfWrittenDropIn`).

## Model

| member | source | states |
|---|---|---|
| Crypto.FrameAADInjective | internal/crypto/crypto.go:160-168 | The associated data names one stream id and one frame number below 2^64: equal data, equal stream and position |
| Crypto.FrameAADWraps | internal/crypto/crypto.go:160-168 | The 64-bit counter wraps: frame n is bound only modulo 2^64, which is why position binding needs fewer frames than that |
| Crypto.MagicVersion | internal/crypto/crypto.go:74-83 | Version 2 exactly for a prefix that starts with the V2 magic, 1 exactly for the V1 magic, otherwise neither |
| Crypto.DecodeEncode | internal/crypto/crypto.go:251-292 | The reader takes whole frames off one by one, each yielding its own plaintext, whatever bytes follow |
| Crypto.RoundTrip | internal/crypto/crypto.go:170-292 | Reading what a V2 writer wrote gives the plaintexts back, in order, and ends cleanly, for any cipher that opens what was sealed |
| Crypto.EncodedSize | internal/crypto/crypto.go:170-199 | Each frame takes its length prefix, nonce, plaintext and tag, and nothing more |
| Crypto.PartialFrame | internal/crypto/crypto.go:261-275 | A frame cut at any byte yields nothing and reads as a clean end |
| Crypto.DecodeCut | internal/crypto/crypto.go:251-292 | Frames cut at any byte decode to exactly the frames that lie wholly inside the cut, with no error |
| Crypto.WholeFrames | internal/crypto/crypto.go:251-292 | The number of frames wholly inside the first bytes of an encoding: the greatest that fits |
| Crypto.Truncation | internal/crypto/crypto.go:226-292 | A V2 file cut anywhere after the magic, the stream id included, yields the frames wholly inside the cut, with no error recorded |
| Crypto.WireFormat | internal/crypto/crypto.go:8-17 | What is on disk, byte by byte: magic, stream id, and for each frame its length, highest byte first, nonce and sealed plaintext; the seal covers the id and the frame number, highest byte first; a frame is at most 1 MiB |
| Crypto.EndOfStream | internal/crypto/crypto.go:261-285 | After the frames that are all right, a length over the cap is an error, a whole frame that does not open is corruption, and a length too short or a frame not all there is an ordinary end |
| Crypto.OldRoundTrip | internal/store/store.go:148-177 | A file of the older format, which binds its frames to nothing, opens as the plaintexts it was written from |
| Crypto.OldTruncation | internal/store/store.go:148-177 | Cut anywhere after the magic it opens as the frames wholly inside the cut |
| Crypto.PlainOpens | internal/store/store.go:179-187 | A file that starts with neither magic, or is too short for one, opens as it is: every recording that begins like a header does |
| Crypto.PlainSnapshotsGrow | internal/store/store.go:179-187 | What a snapshot of a plain recording shows is the start of what a later one shows |
| Crypto.SnapshotsGrow | internal/store/store.go:148-177 | And so it is with an encrypted one, cut anywhere after the magic |
| Crypto.SnapshotCovers | internal/store/store.go:115-177 | A snapshot that holds a written V2 stream and any bytes after it, half a later frame included, decrypts to at least that stream, and starts with it |
| Crypto.DecodeBound | internal/crypto/crypto.go:251-292 | On any bytes the reader yields a prefix of the plaintexts sealed for the positions it reads |
| Crypto.PositionBinding | internal/crypto/crypto.go:160-292 | With distinct stream ids and fewer than 2^64 frames, on any input whatever the V2 reader yields a prefix of what the one writer with that stream id sealed, in order, and nothing when there is no such writer |
| Crypto.BindingExact | internal/crypto/crypto.go:170-292 | Position binding holds for a stream if and only if no other plaintext was ever sealed for one of its positions or the next; retrying a Write after a failed one can break that |
| Crypto.StrayFrameDecodes | internal/crypto/crypto.go:170-199 | A second seal for a position does decode in its place: the counterexample behind the condition |
| CryptoStreams.Sink.Write | internal/crypto/crypto.go:186-196 | An underlying write that fails may have put down any leading part |
| CryptoStreams.EncWriter.Write | internal/crypto/crypto.go:170-199 | One Write is one frame; empty or oversized input emits nothing and leaves the counter; the counter moves only with a whole frame; a failed sink tears the frame |
| CryptoStreams.WriteAll | internal/crypto/crypto.go:170-199 | A run of Writes, empty and oversized ones included: the sink holds the whole frames of the chunks before the first failure and at most a proper part of the one that failed, nothing of an oversized one; no position is sealed twice |
| CryptoStreams.FramedKeepsAll | internal/crypto/crypto.go:170-199 | The frames of a run carry every byte of its chunks once, in order |
| CryptoStreams.RetriedWrite | internal/crypto/crypto.go:170-199 | A Write retried on a failed one with other bytes seals a position twice: the file written reads as the second, and another one that reads as the first opens too |
| CryptoStreams.TornOnce | internal/crypto/crypto.go:170-199 | The first failed Write seals no position for two plaintexts |
| CryptoStreams.WriterIsFaithful | internal/crypto/crypto.go:170-199 | A writer stopped at its first failed Write meets what position binding asks of it |
| CryptoStreams.TakeFrame | internal/crypto/crypto.go:261-285 | One turn of the reader: next plaintext, or the stop and its status that the specification gives |
| CryptoStreams.DecReader.Read | internal/crypto/crypto.go:251-292 | Read hands out the next part of what remains, at most the buffer size; an end is reported only when nothing remains; Err is set exactly when a frame failed to authenticate |
| CryptoStreams.DecReader.Refill | internal/crypto/crypto.go:251-292 | The loop of Read turns until there is plaintext to hand out, past empty frames, or the stream has ended |
| CryptoStreams.ReadInPieces | internal/crypto/crypto.go:251-292 | For every choice of buffer sizes the pieces read make up the plaintext in order, all of it once an end is reported |
| CryptoStreams.AcceptedWithin | internal/crypto/crypto.go:251-292 | However often it is called, past a reported end too, the reader only ever accepts what was sealed for its position |
| LiveTail.StepInv | internal/daemon/daemon.go:115-297 | Every step of recorder, tailers and failing connections keeps the invariant of the session |
| LiveTail.RunInv | internal/daemon/daemon.go:115-297 | The invariant holds in every state of every interleaving |
| LiveTail.TailContiguity | internal/daemon/daemon.go:115-257 | In every interleaving a client has received a prefix of the plaintext stream; while it is registered and its connection holds, received, still to replay, in flight, queued and pending fan-out together are the whole stream |
| LiveTail.ReplayReachesBoundary | internal/daemon/daemon.go:180-246 | However the snapshot cut the file, decrypting it covers the replay boundary, its start is the stream before registration, and on an open connection the replay can always go on to the boundary |
| LiveTail.ReplaysWhatPrecedesRegistration | internal/daemon/daemon.go:180-246 | The boundary is the length of the stream at registration, and what is replayed begins with exactly that stream |
| LiveTail.FanOutInAnyOrder | internal/daemon/daemon.go:136-145 | In whatever order the map yields the subscribers, each gets the chunk or is dropped by its own queue alone, and nobody else is touched |
| LiveTail.OnlyAppends | internal/daemon/daemon.go:115-257 | The stream and what a client has got are only appended to; a boundary never moves |
| LiveTail.ChannelDiscipline | internal/daemon/daemon.go:115-297 | A channel is open exactly while its subscriber is in subs; nothing is sent on a closed one, and no channel or done is closed twice |
| LiveTail.OwnStepCounts | internal/daemon/daemon.go:208-297 | While close waits for a tailer, each step the tailer takes brings it nearer its end |
| LiveTail.OthersDoNotInterfere | internal/daemon/daemon.go:208-297 | Nothing anyone else does meanwhile sets it back |
| LiveTail.OwnStepEnabled | internal/daemon/daemon.go:208-297 | Until it has closed done it always has a step to take, whether replaying, draining, dropped or disconnecting |
| LiveTail.CloseWaitEnds | internal/daemon/daemon.go:270-297 | So the wait of close on a tailer is bounded in the steps of that tailer, and ends |
| Closing.EndedMeansClosed | internal/daemon/daemon.go:270-297 | In every run: once close has returned, each client that was registered when it began has its connection closed and its goroutine has ended |
| Closing.DroppedMeansClosed | internal/daemon/daemon.go:127-157 | In every run: a client that a write found too far behind has its connection closed once that write has returned |
| Closing.ClosedHasCause | internal/daemon/daemon.go:115-297 | The daemon closes a client's connection only after its replay failed, after a write found its queue full, or at the end for a client registered then |
| Closing.FailedReplayCloses | internal/daemon/daemon.go:225-268 | A tailer whose replay failed is on its way out from then on, and has closed its connection itself by the time it ends |
| Closing.QueuesAreEmptied | internal/daemon/daemon.go:208-268 | A tailer takes every chunk off its queue before it ends, unless its replay failed after it had been dropped |
| Closing.OneChunkAtATime | internal/daemon/daemon.go:208-224 | It takes them one at a time, from the front |
| Closing.TransfersDeliver | internal/daemon/daemon.go:208-246 | Every transfer brings the client something, and nothing else does |
| Closing.FailureIsFinal | internal/daemon/daemon.go:115-125 | After a write that failed, or once close has begun, not one byte more is written, counted or owed |
| Closing.TakesAnything | internal/daemon/daemon.go:115-135 | A session starts idle and takes any chunk: an empty one goes straight to the clients, one too long fails the session, any other is written from its first byte |
| Closing.FanOutStarts | internal/daemon/daemon.go:126-135 | A chunk is fanned out to exactly those registered when its write was counted |
| Closing.NobodySkipped | internal/daemon/daemon.go:136-145 | Each of them is offered it before the lock is let go |
| Closing.LockIsLetGo | internal/daemon/daemon.go:115-147 | A write that holds the lock can go on, and each step it takes brings it nearer letting go |
| Closing.WriteCanFinish | internal/daemon/daemon.go:115-126 | Nothing but the disk keeps a write from putting down its whole frame |
| Closing.EndingGoesOn | internal/daemon/daemon.go:147-157 | Closing the dropped, and closing the session but for its waits, can always go on |
| Closing.EndingCounts | internal/daemon/daemon.go:270-297 | And each of its steps brings it nearer the end |
| Closing.CanBeClosed | internal/daemon/daemon.go:683-687 | A session can be closed between any two writes and after a failed one |
| Closing.NewcomersComeIn | internal/daemon/daemon.go:180-189 | Whenever no write holds the lock any new client can come; it is refused exactly when the session has ended |
| Closing.TailerMoves | internal/daemon/daemon.go:208-268 | A tailer stands still only with nothing to send or for the lock; on an open connection it always has a step that is no failure |
| Closing.ClientsMayGo | internal/daemon/daemon.go:208-224 | A client may go at any moment |
| Closing.ChannelsAreUsedOpen | internal/daemon/daemon.go:136-145 | In every run: a channel is sent on or closed only while it is open, and a done channel is closed once |
| Session.Session.Register | internal/daemon/daemon.go:180-189 | Under the lock: boundary and registration taken together, nothing once the session is done |
| Session.Session.Remove | internal/daemon/daemon.go:195-204 | Takes out and closes the channel of exactly the registered subscriber, and says whether it did |
| Session.Session.FanOut | internal/daemon/daemon.go:127-145 | A subscriber with room gets the chunk at the end of its queue; one without is taken out, its channel closed, and it alone is returned for closing |
| Session.Session.Write | internal/daemon/daemon.go:115-157 | Disk first: a failed write changes no subscriber and not the boundary; otherwise the boundary moves by the chunk and the lagging connections are closed |
| Session.Session.Close | internal/daemon/daemon.go:270-297 | Marks the session done, empties subs, closes every channel, and closes the connections of exactly the former subscribers |
| Session.Session.RegisterIsStep | internal/daemon/daemon.go:180-189 | Register takes a session that shows a state of the interleaving to one that shows the state after its step |
| Session.Session.RemoveIsStep | internal/daemon/daemon.go:195-204 | So does Remove, as the step of a tailer that failed or was dropped |
| Session.Session.FanOutIsSteps | internal/daemon/daemon.go:127-145 | So does FanOut, as the fan-out to all subscribers in whatever order, and both find the same ones too far behind |
| Session.Session.EndIsStep | internal/daemon/daemon.go:270-290 | So does the part of Close under the lock, and it hands over the very subscribers that the step is to close and wait for |
| FileSystem.TempIsNoRecording | internal/store/store.go:214-214 | The temporary name is accepted neither by a sweep nor by a listing of the store, whatever the final name |
| FileSystem.ExtAfterDot | internal/daemon/daemon.go:1202-1204 | The extension of a name is what follows its last dot |
| FileSystem.WhatIsTaken | internal/daemon/daemon.go:1194-1206 | A listing shows the names that end in .cast; a sweep takes those of them that do not start with a dot |
| FileSystem.BaseOfPath | internal/daemon/daemon.go:1148-1148 | The base name of a home is its last element, slashes after it aside |
| FileSystem.SafeMeans | internal/store/store.go:210-213 | A name is safe to write under when it is not empty, no dot entry and has no separator |
| FileSystem.RenameMoves | internal/store/store.go:241-244 | A rename moves the file at once; until the directory is synced a crash may bring back either name as it was |
| FileSystem.CrashIsFree | internal/store/store.go:205-209 | A crash may choose any of the things a name may be, and any bytes for data never synced |
| IngestState.KeptDecrypts | internal/daemon/daemon.go:1296-1303 | A complete copy decrypts to what it is a copy of |
| IngestState.Publish | internal/store/store.go:241-244 | Renaming a synced, complete copy over its final name keeps every file a sweep has made whole, loses no recording unless two are filed under one name, and harms nothing the sessions have filed unless a local recording is named like it |
| IngestState.RemoveSource | internal/daemon/daemon.go:1180-1180 | A source may go once the store has the recording for good |
| IngestState.Crashes | internal/store/store.go:205-209 | A crash at this point, with any outcome for names not synced and data not synced, keeps every file a sweep has put into the store whole, every recording somewhere, and every filed session byte for byte |
| IngestState.ActMoves | internal/daemon/daemon.go:636-733 | Whatever others do meanwhile keeps all three: recordings that grow or appear, session files made, written, torn, removed, ended and filed in the very directory swept into; and they leave alone what is neither theirs nor free |
| IngestState.RecordingsGrow | internal/daemon/daemon.go:1147-1182 | Recordings at home come and grow at their end |
| IngestState.SessionsWrite | internal/daemon/daemon.go:641-690 | The file of a session starts empty, grows by what is written, and may be removed while it is open; until synced none of this is sure to last |
| IngestState.SessionsEnd | internal/daemon/daemon.go:270-297 | At its end the file is as it was, on disk if the sync worked; what is filed is what it holds |
| IngestState.UnsyncedMayBeAnything | internal/store/store.go:205-209 | A file not synced may hold any bytes after a crash |
| Ingest.Machine.Call | internal/daemon/daemon.go:1277-1323 | Before every system call others take any steps they can, and the machine may go down at it |
| Ingest.Machine.CopyPiece | internal/daemon/daemon.go:1301-1303 | One turn of the copy: the piece read next becomes one frame, so the copy is always the encryption of what was read |
| Ingest.Machine.CopyBody | internal/daemon/daemon.go:1296-1321 | The copy succeeds only if every call on the way was well, the source was asked about once more and found inactive, and is as long as at the start; then it is complete; undisturbed it does succeed |
| Ingest.Machine.Commit | internal/store/store.go:234-250 | Sync, close, rename, directory sync: at any crash the final name is the old one or the whole new one |
| Ingest.Machine.Abandon | internal/store/store.go:222-227 | After an error nothing but the temporary name has changed, and that is free again just when its removal worked |
| Ingest.Machine.WriteFileAtomic | internal/store/store.go:210-252 | At every crash point the final name is what it could be before, or the whole synced copy; an error leaves it as it was; success leaves it complete; a name that was free or a session's, the session may meanwhile have taken or freed |
| Ingest.Machine.IngestOne | internal/daemon/daemon.go:1161-1180 | A source goes only after its copy is in place, by calls that were all well, the recheck for activity among them, and just when the removal worked; on failure it stays, and so does what the store had; undisturbed it is copied and goes exactly when it is there under a name the store can take |
| Ingest.Machine.Prepare | internal/daemon/daemon.go:1155-1161 | A visit goes on only when the recording was found inactive and its directory in the store is there |
| Ingest.Machine.IngestHome | internal/daemon/daemon.go:1147-1182 | The sources gone are listed, eligible ones, each with a whole synced copy in the store; nothing was copied that was not found inactive both at its visit and after the copy; every other source, listed or not, is where it was; no name in the store but those of the copies changes, nor a file under another name that no session is writing. When no call to come fails and no temporary file is in the way the sweep is undisturbed, and then what is to see at home and in the store is what SweepAll says, collisions included |
| IngestSteps.ClearedMeans | internal/daemon/daemon.go:1155-1163 | Cleared means: found inactive, then found inactive once more, and in between no call failed but those whose failure is passed over |
| Ingest.ListingMeans | internal/daemon/daemon.go:1194-1206 | What a sweep takes of a home is its regular files with the names of finished recordings, and no other entry |
| Ingest.HomesInOrder | internal/daemon/daemon.go:1094-1098 | Homes are swept in their order, one after the other |
| Ingest.Machine.Sweep | internal/daemon/daemon.go:1094-1098 | Home after home; undisturbed, as it is when no call to come fails, it does what SweepAll says of all the listings one after the other |
| Ingest.Machine.Run | internal/daemon/daemon.go:1094-1182 | Over any run of sweeps, failures, crashes, growing recordings and running sessions: every recording stays at its source or complete in the store, if directory syncs work and no two are filed under one name; and what the sessions have filed stays, if no local recording is named like it |
| Ingest.NothingIsLost | internal/daemon/daemon.go:1147-1182 | After any crash the recording is at its source, or what is in the store decrypts to it |
| Ingest.FiledIsThere | internal/daemon/daemon.go:636-733 | After any crash what a session has brought to disk is there under its name, byte for byte |
| Ingest.ListingsAreWhole | internal/store/store.go:413-426 | A file that a listing of the store shows after any crash is one of the sessions' own, or a whole encrypted recording |
| Ingest.DirSyncNeeded | internal/store/store.go:245-249 | Without the directory sync, some crash after the removal brings back neither name if and only if the final name might have been free on disk before |
| Ingest.SweptReadableExactly | internal/daemon/daemon.go:1147-1182 | After an undisturbed sweep every swept recording can be read in the store, and every one that could be before still can, if and only if recordings filed under one name, listed or stored, are all the same |
| Ingest.Machine.SweepAgain | internal/daemon/daemon.go:1147-1182 | A second undisturbed sweep over the same listings changes nothing that can be seen; two sweeps with no call failing are undisturbed |
| Ingest.Machine.SweepHomesThatEndAlike | internal/daemon/daemon.go:1148-1148 | Two homes with the same base name, no call failing: both sources go, and the store has only the second recording |
| Ingest.Machine.SweepOverSession | internal/daemon/daemon.go:1148-1163 | A local recording named like the file of a session, filed, ended or still running, takes its place when swept with no call failing |
| Ingest.TwoHomesRun | internal/daemon/daemon.go:1094-1182 | A run: two recordings in homes that end alike, any sweep of both in which no call fails, and the second is all that is to be seen at home and in the store |
| Ingest.PlantedRun | internal/daemon/daemon.go:1094-1182 | A run: a filed session, a local recording named like it, any sweep in which no call fails, and the name in the store holds the local one |
| Ingest.Planted | internal/daemon/daemon.go:636-733 | Steps of a session and a user lead from an empty store to the world PlantedRun starts from, where nothing is lost yet |
| Sweeps.SourcesAfter | internal/daemon/daemon.go:1147-1182 | A sweep without failures, as IngestHome is shown to be, takes exactly the listed ingestible recordings from their sources |
| Sweeps.SweepTwice | internal/daemon/daemon.go:1147-1182 | Repeating it changes nothing |
| Sweeps.FiledExactlyWithoutClash | internal/daemon/daemon.go:1148-1163 | Every swept recording keeps its content if and only if no two different ones share a home base name and a file name |
| Sweeps.UnharmedExactlyWithoutClash | internal/daemon/daemon.go:1148-1163 | And nothing stored before is replaced either, if and only if none of them differs from a stored one of the same name |
| Sweeps.HomesThatEndAlike | internal/daemon/daemon.go:1148-1148 | Two homes with the same base name: both sources go, the second sweep writes over the first recording, and the rest stays |
| Sweeps.SweptView | internal/daemon/daemon.go:1147-1182 | One undisturbed step of the sweep moves the recording from its source to its name in the store and changes nothing else to be seen |
| Scrollback.EscLenStable | internal/play/scrollback.go:118-154 | A complete escape sequence has the same end whatever follows it, and in any prefix that holds it |
| Scrollback.ChunkIndependence | internal/play/scrollback.go:62-113 | Feeding two chunks is feeding them joined, if and only if the split does not separate CR from LF after a non-empty line |
| Scrollback.TornLineDiffers | internal/play/scrollback.go:74-80 | A torn CR LF does lose the line: the history differs at that line |
| Scrollback.AnyChunking | internal/play/scrollback.go:62-113 | Any chunking that keeps CR LF together leaves the buffer that one feed leaves |
| Scrollback.RunBounded | internal/play/scrollback.go:54-59 | No line, committed or current, is ever longer than 64 KiB |
| Scrollback.Kept | internal/play/scrollback.go:42-51 | Between min(total, 10000) and min(total, 20000) of the committed lines are kept |
| Scrollback.RetainedSnoc | internal/play/scrollback.go:42-51 | The lines kept are always a suffix of all lines committed |
| Scrollback.LineBuf.CommitLine | internal/play/scrollback.go:42-51 | In place, with the cut back to 10000 lines |
| Scrollback.LineBuf.FeedChunk | internal/play/scrollback.go:62-113 | The loop over a chunk does what the specification of the parser does, from any state |
| Scrollback.EscComplete | internal/play/scrollback.go:118-154 | True exactly when the sequence is all there; an ESC inside an OSC not followed by a backslash keeps it pending |
| Scrollback.ParseESC | internal/play/scrollback.go:160-200 | On a complete sequence it takes exactly the bytes that make it complete |
| ScrollbackLines.LinesAreKept | internal/play/scrollback.go:62-113 | Lines of printable bytes and tabs, each ended by LF or CR LF, fed to an empty buffer are exactly its history, each as far as 64 KiB, and what follows the last end is being written |
| ScrollbackLines.TextIsKept | internal/play/scrollback.go:104-108 | Printable bytes go to the end of the current line, in order, until it is full |
| ScrollbackLines.LineEnds | internal/play/scrollback.go:69-80 | A line feed, with or without a carriage return before it, commits the line |
| ScrollbackLines.ReturnClears | internal/play/scrollback.go:74-82 | A carriage return that no line feed follows starts the line over |
| ScrollbackLines.ControlsVanish | internal/play/scrollback.go:100-110 | Other control bytes leave nothing |
| ScrollbackLines.SequencesEnd | internal/play/scrollback.go:118-154 | A CSI sequence ends at its first final byte, an OSC at BEL or at ESC and a backslash, any other after two bytes, whatever follows |
| ScrollbackLines.UnfinishedWaits | internal/play/scrollback.go:84-90 | A sequence that is not all there waits, whole, for the next chunk |
| ScrollbackLines.StylesAreKept | internal/play/scrollback.go:91-96 | A style stays in the line, where it came, if it fits |
| ScrollbackLines.MovesEndTheLine | internal/play/scrollback.go:96-101 | A move to another row commits a line that has anything on it |
| ScrollbackLines.OtherSequencesVanish | internal/play/scrollback.go:84-101 | Every other sequence leaves nothing |
| CastWriter.CompleteUTF8Len | internal/cast/cast.go:131-147 | The backward scan finds where a sequence still waiting for bytes begins |
| CastWriter.CompleteLen | internal/cast/cast.go:131-147 | It keeps back at most three bytes, on any input |
| CastWriter.CharsAreThese | internal/cast/cast.go:131-162 | What valid UTF-8 is taken to be: the characters of section 3 of RFC 3629, no overlong form, no surrogate, nothing above U+10FFFF |
| CastWriter.CutsAtBoundary | internal/cast/cast.go:131-162 | On any prefix of valid UTF-8 (section 4 of RFC 3629) the cut is at the last character boundary |
| CastWriter.Writer.WriteOutput | internal/cast/cast.go:73-87 | In place: pending bytes first, a whole-character event, the rest pending |
| CastWriter.Writer.Close | internal/cast/cast.go:119-126 | Emits what is pending and nothing otherwise |
| CastWriter.NothingLost | internal/cast/cast.go:73-106 | For any bytes and chunking, event data then pending is everything written, and pending never exceeds three bytes |
| CastWriter.EventsAreValid | internal/cast/cast.go:73-126 | If the whole output is valid UTF-8 each event is valid on its own, and Close adds nothing |
| CastWriter.LengthAnnounced | internal/cast/cast.go:149-162 | The length a leading byte announces, for every byte; any other byte stands for itself |
| CastWriter.HeldBackIsUnfinished | internal/cast/cast.go:128-147 | On any bytes, what is held back is exactly a character begun and not finished |
| CastWriter.AnyChunking | internal/cast/cast.go:73-106 | However any bytes are cut into writes, what is pending is the unfinished end of all of them, and the events carry all before it |
| CastWriter.StampedByItsWrite | internal/cast/cast.go:73-91 | A write emits one event, with its own time, of all that it has settled, or none when that is nothing |
| CastWriter.CloseEmitsTheRest | internal/cast/cast.go:119-126 | Close emits an unfinished end with the time of the last write |
| LineRing.LinesAreLines | internal/audit/audit.go:1088-1100 | The specification cuts text after each LF, loses nothing, and counts a non-empty unterminated line as one |
| LineRing.Ring.constructor | internal/audit/audit.go:1080-1085 | At least one line is kept |
| LineRing.Ring.PushLine | internal/audit/audit.go:1102-1111 | The ring holds the last n of the lines pushed, indices always in range |
| LineRing.Ring.Add | internal/audit/audit.go:1088-1100 | However events cut the lines, the state is that of all bytes fed |
| LineRing.Ring.String | internal/audit/audit.go:1117-1131 | Exactly the last n logical lines of everything fed |
| Timeline.SanitizeEvents | internal/play/play.go:178-199 | In place: every time becomes the cleaned one, types and data stay |
| Timeline.CleanIsPlayable | internal/play/play.go:172-199 | Whatever the file says, cleaned times are finite, non-negative and never go back |
| Timeline.CleanKeepsPlayable | internal/play/play.go:178-199 | A timeline that was fine is left exactly as it was |
| Timeline.CleanIsRunningMax | internal/play/play.go:178-199 | With finite stamps the result is their running maximum from 0 |
| Timeline.SpecialStamps | internal/play/play.go:178-199 | A stamp that is not a number, or is minus infinity, repeats the time before; infinity is an hour later; a later finite stamp is taken as it is |
| Timeline.ClampIdleGaps | internal/play/play.go:229-246 | A copy in which each gap, and nothing else, is cut to the limit; the input itself when there is no limit |
| Timeline.GapsMean | internal/play/play.go:229-246 | Each event comes as long after the one before as it did, or the limit after it when that is sooner |
| Timeline.ClampedIsPlayable | internal/play/play.go:229-246 | The result is playable and no event moves to a later time |
| Timeline.ClampedOnce | internal/play/play.go:229-246 | Clamping again changes nothing |
| Timeline.ClampSeek | internal/play/play.go:202-210 | The point of the recording nearest to the target |
| Timeline.OutsAppend | internal/play/play.go:372-377 | The output of a stretch is that of its output events, in order |
| Player.WaitedLongEnough | internal/play/play.go:215-224 | Waiting a gap divided by the speed lets the whole gap pass |
| Player.Player.ClockRuns | internal/play/play.go:400-413 | While it plays the clock goes on by speed seconds a second, up to the end |
| Player.Player.ClockStands | internal/play/play.go:400-413 | In a pause, the menu, the scroll view and at the time prompt it stands still |
| Player.ChapterAt | internal/play/chapters.go:81-91 | An index in range: the end of the leading chapters that start at or before t |
| Player.Player.constructor | internal/play/play.go:364-398 | Starts at the beginning, in step, with a positive speed |
| Player.Player.EmitForward | internal/play/play.go:450-457 | Goes to the first event later than the target, or stays put when past it |
| Player.Player.RenderTo | internal/play/play.go:467-477 | Output since the clear, and scrollback, are those of the events up to the target |
| Player.Player.SyncClock | internal/play/play.go:478-483 | Moves vt to the displayed time without moving the display |
| Player.Player.Seek | internal/play/play.go:484-493 | The clock goes to the target, or to the nearer end of the recording; the screen lands exactly if and only if it goes back or nothing later than the target has been emitted |
| Player.Player.JumpTo | internal/play/play.go:731-736 | A seek after syncClock from a player in step lands on the first event later than the clamped target, on both branches; forward never puts the clock back, nor back forward |
| Player.Player.Resize | internal/play/play.go:591-603 | Renders to the displayed time and leaves vt; in the scroll view it renders nothing |
| Player.Player.ExitList | internal/play/play.go:633-641 | Leaving the menu rebuilds the recording at the time the clock shows |
| Player.Player.ExitScroll | internal/play/play.go:545-550 | Leaving the scroll view rebuilds the recording at vt, still paused |
| Player.Player.ScrollUp | internal/play/play.go:552-573 | Opens the scroll view at the bottom, or goes three lines up, as far as there is anything to see |
| Player.Player.ScrollDown | internal/play/play.go:575-589 | Three lines down; scrolling to the bottom leaves the scroll view |
| Player.Player.ToggleBar | internal/play/play.go:606-617 | Rebuilds at the synced time |
| Player.Player.OpenGotoList | internal/play/play.go:618-632 | Opens the menu at the chapter the clock is in, or the time prompt when there are no chapters |
| Player.Player.DispatchList | internal/play/play.go:643-695 | Menu input moves the selection within range; Enter and a click jump exactly to the chapter, the other ways out to where the clock was, and anything else changes nothing |
| Player.Player.GotoKey | internal/play/play.go:697-720 | What each key does to the text of the prompt; Enter seeks to the time parsed, exactly when in step; all other keys leave clock and screen alone |
| Player.Player.EditPrompt | internal/play/play.go:697-720 | A digit or colon is added, up to eight, a rubout takes one off, any other key leaves the prompt; the display stands |
| Player.Player.GoToStart | internal/play/play.go:743-744 | The key 0 seeks without syncClock: it leaves the player in step if and only if vt was past 0 or nothing later than 0 had been emitted |
| Player.Player.HandleByte | internal/play/play.go:697-751 | Each key does its own thing and no other: five seconds back or forward to the ends of the recording, twice or half the speed within its limits, pause, bar, start, menu; the player stays in step except in that one case |
| Player.Player.PlayKey | internal/play/play.go:721-751 | The keys of playback |
| Player.Player.PressArrow | internal/play/play.go:785-801 | Up and down change the speed, right and left seek |
| Player.Player.ClickBar | internal/play/play.go:779-784 | A click on the bar goes to the part of the recording that it is at |
| Player.Player.Dispatch | internal/play/play.go:753-807 | Every input in every mode keeps the prefix invariant, and keeps the player in step except in that one case |
| Player.Player.AutoPause | internal/play/play.go:814-822 | Past the last output the player holds at the end, in step |
| Player.Player.Fire | internal/play/play.go:851-857 | The timer plays the next event, the index in range, and leaves the player in step |
| Player.Player.Wake | internal/play/play.go:843-857 | The event waited for exists; it is played exactly when its wait is over |
| Player.Player.OnTime | internal/play/play.go:843-851 | An event is not played before its time has come on the display, gaps over the wait limit aside |
| Player.Player.NotLate | internal/play/play.go:843-851 | Nor is one kept waiting: until it is due the display shows less than its time |
| Player.Player.Turn | internal/play/play.go:813-877 | One turn does what was asked and keeps the player in step but for the hazard; no turn but a resize puts the screen ahead of the clock |
| Player.Player.Play | internal/play/play.go:813-877 | A whole run is in step whenever it stops, unless some turn began at the hazard: the key 0 at time 0 with more on the screen than belongs there; from a screen not ahead of the clock, as at the start, that takes a resize and a later key 0, and without a resize the screen never gets ahead |
| Player.ZeroKeyThenSeek | internal/play/play.go:743-744 | A run that breaks it: a resize handled before a timer already due, the key 0, a seek forward |
| Correlate.AppendCapped | internal/analyze/correlate.go:106-114 | Keeps the last bytes of buffer and data, and says whether some were dropped |
| Correlate.EarlyExitMissesNothing | internal/analyze/correlate.go:76-80 | With times that never go back, stopping after the latest window loses nothing in any window |
| Correlate.EarlyExitCanMiss | internal/analyze/correlate.go:76-80 | With times that do go back it can |
| Correlate.CapturedAppend | internal/analyze/correlate.go:66-92 | What falls in a window, of two stretches of lines, is what falls in it of the one, then of the other |
| Correlate.OneLineCaptured | internal/analyze/correlate.go:76-91 | A line counts for a window when it is output and lies between its ends, both included |
| Correlate.OnlyDifferencesCount | internal/analyze/correlate.go:50-62 | Window times are seconds since the session start: a thousand million nanoseconds each |
| Correlate.ShiftCapturesSame | internal/analyze/correlate.go:50-62 | A session moved in time as a whole, with its failures, captures the same |
| Correlate.LatestEndIsMet | internal/analyze/correlate.go:55-64 | The pass stops no later than it must: at the end of some window, or at the start |
| Correlate.Collect | internal/analyze/correlate.go:81-91 | One event goes to every window it falls in, overlapping ones included, and to no other |
| Correlate.Scan | internal/analyze/correlate.go:66-92 | The pass leaves each window the last bytes of what it captured, truncated exactly when that was longer |
| Correlate.CorrelateOutput | internal/analyze/correlate.go:34-100 | Each failure gets the last maxBytes bytes of the output in its window before the first malformed line, when times never go back; with no header or start, nothing is touched |
| Retry.SameNormSameWords | internal/analyze/detectors.go:22-24 | Commands are taken for the same exactly when they have the same words; the form shown is stable |
| Text.FieldsOfJoin | internal/analyze/detectors.go:22-24 | Words joined by single spaces split into the same words |
| Text.FieldsAppend | internal/analyze/detectors.go:22-24 | White space parts words, as much as there is of it, and counts for nothing at the ends |
| Text.StrLeDecides | internal/analyze/analyze.go:278-283 | Ids are told apart at the first place where they differ; a start of an id comes before it |
| Spans.ValidSorted | internal/analyze/analyze.go:271-285 | The valid spans, no other, in order of start |
| Spans.OnlyValidCounts | internal/analyze/analyze.go:271-277 | Each valid span is there as often as it was given, and no other |
| Spans.ChronIsPreorder | internal/analyze/analyze.go:278-283 | Start time then id orders all spans |
| Sorting.SortStable | internal/analyze/analyze.go:278-283 | Spans the order does not tell apart keep their order |
| Sorting.SortPermutes | internal/analyze/analyze.go:278-283 | Sorting neither adds nor drops |
| Sorting.OneArrangement | internal/analyze/detectors.go:80-86 | When keys tell elements apart any sort gives the same list |
| Retry.GroupByNormalized | internal/analyze/detectors.go:42-57 | One group a command, holding all its spans in start order; no span is left out |
| Retry.OfNormInTime | internal/analyze/detectors.go:37-41 | Each group keeps the order of time |
| Retry.OfNormAppend | internal/analyze/detectors.go:42-57 | The spans of a command come in the order of the input |
| Retry.RunsCut | internal/analyze/detectors.go:69-78 | The runs found concatenate back to the group, are close inside and apart outside |
| Retry.TwoInvocations | internal/analyze/detectors.go:69-78 | Two invocations are one run when the second starts no later than the window after the first |
| Retry.OneCut | internal/analyze/detectors.go:58-78 | There is only one such cut: the runs are the maximal ones |
| Retry.StretchInOneRun | internal/analyze/detectors.go:58-78 | No stretch of invocations within the window reaches over the end of a run |
| Retry.BuildRetryLoop | internal/analyze/detectors.go:89-108 | Count, failures, first and last start, exit codes and ids of the run |
| Retry.FailuresAreNonZero | internal/analyze/detectors.go:89-108 | The failures are the exit codes other than 0 |
| Retry.ReportSpansRun | internal/analyze/detectors.go:89-108 | A report names the first and last start, and every exit code and id, of the very run |
| Retry.ScanGroup | internal/analyze/detectors.go:69-78 | The scan reports exactly the runs of a group that are long enough |
| Retry.DetectRetryLoops | internal/analyze/detectors.go:65-87 | A loop is reported if and only if it is a maximal run of at least threshold; the list is sorted |
| Retry.ThresholdIsEnough | internal/analyze/detectors.go:69-79 | A run of exactly the threshold is reported, and one of fewer is not |
| Retry.ReportsAreDeserved | internal/analyze/detectors.go:65-79 | Reports and long maximal runs are the same things |
| Retry.SameKeySameReport | internal/analyze/detectors.go:80-86 | Start and command identify a report |
| Retry.OrderIsSettled | internal/analyze/detectors.go:80-86 | So the unstable sort has one possible result |
| SpanTree.LastWith | internal/audit/audit.go:488-493 | The last span with an id is the one looked up |
| SpanTree.ParentOf | internal/audit/audit.go:494-505 | Unknown, missing or own parent means the root; never the span itself |
| SpanTree.BuildSpanTree | internal/audit/audit.go:483-508 | Each span is in exactly one child list, its parent's, and there once; lists within the depth cap are in order of time |
| SpanTree.SortTree | internal/audit/audit.go:512-526 | Sorts the lists of the node and of all below it down to the cap, and no other |
| SpanTree.ChronologicalGoesByTime | internal/audit/audit.go:512-526 | A sorted list goes by start time, and by id where that is the same |
| SpanTree.ListsHoldEverySpan | internal/audit/audit.go:494-505 | The lengths of all child lists sum to the number of spans |
| TreeWalk.WalkCounts | internal/audit/audit.go:494-505 | In a walk a node comes up once for each time its chain of parents meets the nodes walked from |
| TreeWalk.ShownOnceIffRooted | internal/audit/audit.go:483-508 | From the root a span is visited once if its chain of parents ends there within the depth, and otherwise never |
| TreeWalk.CircleIsHidden | internal/audit/audit.go:494-505 | Spans whose parents form a circle are not reachable |
| TreeWalk.RootedSoon | internal/audit/audit.go:377-382 | A chain to the root is no longer than there are spans, so the cap hides nothing from a thousand spans or fewer |
| TreeWalk.ToJsonNode | internal/audit/audit.go:607-634 | The recursion ends at the cap and builds the document of the specification |
| TreeWalk.DocIsWalk | internal/audit/audit.go:607-634 | The document holds the walk, parents before children, siblings in list order |
| TreeWalk.ParentsFirst | internal/audit/audit.go:539-553 | In a walk every span comes after its parent |
| TreeWalk.InListOrder | internal/audit/audit.go:539-553 | And siblings come in the order of their list |
| TreeWalk.DocNests | internal/audit/audit.go:607-634 | Each path down the child lists, as far as the cap, leads in the document to the span it leads to there, and no other path leads anywhere |
| TreeWalk.NestedInParent | internal/audit/audit.go:607-634 | Every span in the document is nested in its parent |
| TreeWalk.RenderChildren | internal/audit/audit.go:539-553 | The recursion ends at the cap, and marks it there |
| TreeWalk.LinesShowWalk | internal/audit/audit.go:539-553 | The drawing shows the same walk |
| TreeWalk.LinesHang | internal/audit/audit.go:539-553 | Each line of the drawing stands for a path down the lists: its indentation tells which steps went to the last of a list |
| TreeWalk.EveryPathIsDrawn | internal/audit/audit.go:539-553 | And each path has its line; where the cap cuts, the mark for it |
| Registry.SessionRegistry.Reserve | internal/daemon/daemon.go:377-385 | A slot is taken if and only if the count is below the cap |
| Registry.SessionRegistry.Release | internal/daemon/daemon.go:391-399 | The count goes down by one if there is one, no other changes, and no zero entry is left |
| Registry.SessionRegistry.Add | internal/daemon/daemon.go:352-360 | An id that is live is refused and keeps its session |
| Registry.ReserveRelease | internal/daemon/daemon.go:377-399 | Taking a slot and giving it back restores the table |
| Handshake.RecHandshake | internal/record/record.go:133-164 | Central only after three bytes read in full that start with OK |
| Handshake.OpenSink | internal/record/record.go:103-131 | A named output, a failed dial or any other answer means a local file |
| Handshake.OnlyOkAcknowledges | internal/record/record.go:140-148 | Of all that a daemon sends, or part of it, only OK is taken for an acknowledgement |
| Handshake.StepSlots | internal/daemon/daemon.go:619-625 | Every step keeps connCount equal to the handlers between reserve and release |
| Handshake.StepSessions | internal/daemon/daemon.go:665-681 | Every step keeps the live ids those of the running sessions, one each |
| Handshake.StepFiles | internal/daemon/daemon.go:641-671 | No two sessions share a file, so the loser of a collision never removes a running session's file |
| Handshake.EveryRun | internal/daemon/daemon.go:345-407 | In every run counts are exact, without zero entries, and live ids have one owner |
| Handshake.StepRespectsCapAndIds | internal/daemon/daemon.go:352-385 | A count is raised only from below the current cap, and an id is taken off only by its own handler |
| Handshake.CentralMeansRegistered | internal/daemon/daemon.go:619-691 | If a recorder streams to the daemon, that daemon had its session opened and registered when it sent OK |
| Handshake.SessionStarts | internal/daemon/daemon.go:619-691 | Below the cap, with a new id and nothing failing, a handler opens, registers and acknowledges its session: exactly that, for exactly its user |
| Handshake.RecorderDecides | internal/record/record.go:140-164 | A full OK then takes the recorder to the daemon; an ERR line, or its own time limit, to a local file |
| Handshake.ChoiceStays | internal/record/record.go:103-131 | A recorder decides once |
| Handshake.SessionLeavesTable | internal/daemon/daemon.go:619-681 | A whole session leaves the table of ids and counts as it found it, and its recording behind |
| Handshake.TurnedAway | internal/daemon/daemon.go:619-623 | At the cap a handler goes at once, with nothing taken |
| Handshake.AnyoneConnects | internal/daemon/daemon.go:519-530 | Anyone may connect and has a handler from then on, with nothing said and nothing decided |
| Handshake.NewCapCounts | internal/daemon/daemon.go:401-407 | A new cap counts for the next to come, and takes nothing from those that have a slot |
| Handshake.NoFileNoSession | internal/daemon/daemon.go:641-658 | Without a file there is no session: the slot goes back and nothing else has changed |
| Handshake.CollisionLeavesNothing | internal/daemon/daemon.go:665-675 | A handler whose id is live removes its own file and leaves that session alone |
| Handshake.HandlersLeave | internal/daemon/daemon.go:619-733 | Wherever a handler is, at most three steps of its own take it out, its session and slot given up, and no one else touched |
| Sshd.IncludesDropinDir | internal/initcmd/sshforce.go:79-100 | True exactly when a line before any over-long one is an Include of the directory |
| Sshd.CoversByWords | internal/initcmd/sshforce.go:79-100 | Only an Include, in any case, of all files or all .conf files of that very directory covers it |
| Sshd.CommentsCoverNothing | internal/initcmd/sshforce.go:86-89 | A commented line never does |
| Sshd.PaddingIsIgnored | internal/initcmd/sshforce.go:86-89 | White space around a line makes no difference |
| Sshd.IncludesMeans | internal/initcmd/sshforce.go:83-100 | The file includes the directory if and only if a line covers it and it and all before it are shorter than 64 KiB |
| Sshd.WithoutIncludeLine | internal/initcmd/sshforce.go:118-135 | Drops the first line that is the directive, and nothing else |
| Sshd.TakesFirstDirective | internal/initcmd/sshforce.go:118-135 | The first directive goes, wherever it stands; a file without one stays as it is |
| Sshd.RemoveUndoesPrepend | internal/initcmd/sshforce.go:102-135 | Removing after prepending restores every possible file byte for byte |
| Sshd.PrependedIncludes | internal/initcmd/sshforce.go:79-112 | With the directive on top the directory is covered, whatever follows |
| Sshd.Files.EnsureInclude | internal/initcmd/sshforce.go:180-194 | The directive is added only when missing |
| Sshd.Files.Enable | internal/initcmd/sshforce.go:152-234 | What both files are after each outcome; a rejected configuration leaves them as before if and only if the calls that take the edits back work; success leaves nothing missing; a complete configuration is never changed |
| Sshd.Files.EnableAgain | internal/initcmd/sshforce.go:145-171 | After a run that succeeded nothing is missing, and a second one, however it ends, leaves both files as that one run made them |
| Sshd.HalfWrittenDropIn | internal/initcmd/sshforce.go:196-204 | Whenever Enable gets as far as the drop-in and its write stops half way, the piece written stays and the next run keeps it |

## Left out

- AES-GCM, random numbers, JSON and bcrypt: the cipher is idealised, nonces, stream ids, session ids and temporary names are inputs, header and event lines are already parsed.
- Sockets, terminals, signals, peer credentials and systemd: only their effect on the parts modelled, as failures and choices of the environment.
- Terminal drawing: of the player only the recording's own bytes since the last clear and the scrollback are kept; the healing of the status bar around saved cursors, the bar's layout and the widths of characters are not.
- The decoder of key presses, the parser of clock times and the search for chapters: the player takes decoded input, and the other two as parameters.
- Floating-point rounding, and the 64-bit limits of nanosecond times in Correlate, Retry and SpanTree: integers and reals are unbounded; valid spans have positive times, whose differences fit.
- Write errors of the cast writer: its buffered writer is a list of events that always accepts more.
- CryptoStreams.DecReader.Read: an input error other than the end of the input is read as the end, as the code does; the error itself is not told apart.
- LiveTail.CloseWaitEnds: bounds the steps of the tailer waited for; that a runnable goroutine is scheduled is taken for granted.
- Session.Session.Write: the methods of Session are whole critical sections; what may happen between and inside them is LiveTail's.
- Session.Session.Close: closes the connections, but waiting for each tailer is LiveTail's, where LiveTail.CloseWaitEnds is about it; the sync and close of the file are left out.
- Ingest.Machine.Run: recordings count from when they are on disk, grow but are not otherwise changed by their users, and do not grow between the last size check and their removal; symbolic links and other file types appear only as entries that are not regular. Root's own pruning of the store is no step of it.
- IngestState.ActMoves: a user does not make a recording anew under a name that a sweep took away; that one would then replace the first, as Sweeps.UnharmedExactlyWithoutClash says of any name the store has. A session's file counts as filed once it and its directory entry are on disk and the session has ended; a session turned away removes its file only while that is still the one under the name.
- Ingest.Machine.IngestHome: which sessions are active is an input at each check, and account listing, logging and directory creation are only further calls that may fail.
- Store paths are pairs of user and file name; the checks of path components are access control and left out but for the one that WriteFileAtomic makes.
- SpanTree.BuildSpanTree: nodes are indices into the span list and child lists an array of index lists, one cell a node, so no two nodes can share a list, as none do in the program.
- TreeWalk.ToJsonNode: a document node carries the span's index in place of the copied fields.
- Retry.BuildRetryLoop: the human-readable duration is display only.
- Redundant commands, latency ranking, the collection of failures and wall duration: field copying and sorting already shown for retry loops.
- Handshake.CentralMeansRegistered: the ansible and span commands, and the tail command, take no part; their use of slots is that of REC.
- Sshd.IncludesDropinDir: the limit on line length counts UTF-8 bytes of valid text; text that is not valid UTF-8 is not modelled. Case folding is that of ASCII, which decides the keyword.
- Sshd.Files.Enable: the text of the drop-in is a parameter, file modes and the reload are left out, and so is disabling.
- Ansible runs, listings, configuration, logging, backups, search, pruning and password gates: plumbing or access control settled by reading one function.
