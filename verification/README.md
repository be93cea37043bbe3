# Verified models of the buffers, locks and protocols

Five cores of the repository, modelled in Dafny, each proved to agree with the simple
thing it stands for. Check the project with `dafny verify dfyconfig.toml`.

* **The circular buffer** (`crates/buffex`, with the compare-exchange loop of
  `crates/atomex` and the segments of `crates/abs_buff`). `RingWord` is the packed state
  word, bit by bit (`Bits` has the bitwise operators on numbers). `Ring` is the buffer as
  a machine of atomic steps, lend, copy, commit, close and arm, by one producer and one
  consumer in any interleaving; it refines a bounded queue. `RingWake` adds the parking
  and waking of both ends, one shared access per step. `Segments` are lent regions of one
  or two pieces and the loops that move items between them. `CircCore` is the object
  with its packed word, its buffer and its devices: users, pumps and the pipeline.
* **The preemptive reader-writer lock** (`crates/atomic_sync`), module `RwLock`, for
  every word width from 8 bits on.
* **The handshake** (`crates/smux_v1`): `FrameCodec` builds and parses frames, `FrameLaws`
  says what the two owe each other and `FrameForms` which bytes are a frame at all.
  `Handshake` has the frame reader, the options and initiator and responder as one joint
  machine over two byte streams, `HandshakeRefusal` what either makes of a frame and what
  a refusal comes to; `HandshakeOverRing` is its own exact read over the circular buffer.
* **Multipart framing** (`crates/abs_buff_utils`): `Multipart` is the format and its laws,
  `MultipartEncode` and `MultipartDecode` the two ends under any schedule of their
  surroundings.
* **Cancellation sources** (`crates/cancel_src`), module `CancelTree`.

## How the model is cut

* A successful compare-exchange loop is one atomic conditional step:
  `AtomicFlags.LinearizationPoint` proves that for any interference and any spurious
  failures, and all other modules work with such steps. Atomic accesses are sequentially
  consistent.
* `Ring` works on the decoded word. `Ring.CommitsOnWords` and the flag lemmas of
  `RingWord` tie every update to the bit arithmetic of the program, and `CircCore` holds
  the packed word itself. `usize` has 64 bits.
* Each await is a point where others may act. Devices, arrival times, segment sizes,
  cancellations and deciders are arbitrary: nondeterministic choices or schedules in
  methods, actions in machines. The two checksums are arbitrary functions on byte sequences.
* Guards of the lock and the logs of the ring are ghost state. What the borrow checker
  enforces (one live segment per end, no use of a guard that is lent out) is the `Enabled`
  condition of a machine.

## Where the code and its comments differ

* A close event never wakes a passive waiter, whatever the comments on the fire
  functions say, neither with its own fire nor with any later one of the closed end:
  `RingWake.CloseDoesNotWake`, `RingWake.NeverWoken`, at a state that
  `RingWake.ParkedIsReachable` reaches.
* The read end of the ring tags a cancellation `Closing`
  (`crates/buffex/src/circular_buff/error_.rs:81-87`), and multipart takes that tag for the
  end of the stream. So an encoder that is cancelled while it waits writes the terminator
  and the other side sees a complete, shorter stream, where its comments say that it just
  stops (`MultipartEncode.CancelledWaitLooksFinished`); and a decoder that is cancelled
  while it waits answers `Invalid` for a whole stream
  (`MultipartDecode.CancelledReadLooksCut`). A source whose tags tell its end from a
  cancellation and a fault, and whose read end stays open, never does either
  (`MultipartEncode.Send`, `MultipartDecode.MultipartRecv.Read`); over every source that tags
  one of them as an end there are runs that do (`MultipartEncode.DishonestRun`,
  `MultipartDecode.DishonestRead`).
* A ring whose read end is closed while its producer goes on counts as drained, and lends
  less than a demand's lower bound
  (`crates/buffex/src/circular_buff/spsc_.rs:711-717`,
  `crates/buffex/src/circular_buff/core_.rs:558-560`). Multipart then ends a stream that is not
  at its end (`MultipartEncode.ShutSourceLooksFinished`), or loses a part of a prefix and
  with it the framing (`MultipartDecode.ShutReadTearsPrefix`).
* The handshake's exact read demands `n` bytes, which the ring answers with up to one more,
  copies all it is lent into a range of `n` and takes nothing of it. It panics when more
  bytes are there and otherwise reads the same bytes again, so that over the ring no party
  ever gets past its first frame (`HandshakeOverRing.NoFrameOverRing`). What `Handshake`
  proves of whole handshakes is for a read that is exact and takes what it reads.
* A handshake frame is written to the current piece of its segment only. A frame that runs
  past the end of the buffer is cut (`Handshake.WholeExactly`), which a debug build answers
  with a panic (`crates/smux_v1/src/handshake/agent.rs:268`) and a release build with Ok;
  then the handshake is stuck (`Handshake.CutFrameStops`), and agreement holds all the
  same.
* Dropping the last handle of a cancellation node resolves its pending futures with the
  answer of a cancellation, though nobody cancelled: `CancelTree.DropResolves`.
* `try_write_at` looks at the closed flag only when there is too little space, so a writer
  may go on after it has closed: `Ring.WriteLentExactly`, `Ring.WriteAfterCloseIsSeen`.
  The end-of-file claim `Ring.EofIsFinal` is for a producer that stops.
* Two calls break the accounting of the lock, and only these two:
  `RwLock.StepKeepsExactly` has the exact condition, `RwLock.SpoiledStep` what they leave
  behind. One takes an upgradable reader while the count is at its maximum
  (`RwLock.OverflowIsReachable`); the other turns a writer into an upgradable reader while
  the reader it was upgraded from is live (`RwLock.NestedIsReachable`). After the second,
  and as long as nobody makes the first, no writer ever gets in again
  (`RwLock.NestedDowngradeBarsWriters`).
* The queued bit is cleared by nothing but the drop of a writer, so a writer that gives up
  after one refused attempt shuts new readers out until then: `RwLock.QueuedShutsOut`.

## Model

| member | source | states |
|---|---|---|
| AtomicFlags.LinearizationPoint | crates/atomex/src/atomic_flags_.rs:24-47 | Success: at one instant the word was an admitted `x` and the thread's only store made it `desire(x)`; refusal: the thread stored nothing and the word held a value not admitted; for every interference |
| AtomicFlags.AnswersWhenUndisturbed | crates/atomex/src/atomic_flags_.rs:24-47 | One undisturbed access after a fresh value is enough for an answer |
| AtomicFlags.AtomicCell.TryOnceCompareExchangeWeak | crates/atomex/src/atomic_flags_.rs:49-74 | One round: refused without a store, exchanged, or failed with the value found |
| AtomicFlags.AtomicCell.TrySpinCompareExchangeWeak | crates/atomex/src/atomic_flags_.rs:24-47 | The loop gives the answer and the stores of the specification that is linearized above |
| RingWord.DataSizeIs | crates/buffex/src/circular_buff/core_.rs:196-210 | Data and free size in both orders of the positions, full and empty included |
| RingWord.AdvanceWpExact | crates/buffex/src/circular_buff/core_.rs:229-240 | A write commit keeps the positions meaningful and adds exactly `amount` if and only if there is room for it |
| RingWord.AdvanceRpExact | crates/buffex/src/circular_buff/core_.rs:250-260 | A read commit removes exactly `amount` if and only if there is as much |
| RingWord.DecodeEncode | crates/buffex/src/circular_buff/core_.rs:118-146 | Words and field records are in bijection |
| RingWord.UnpackFields | crates/buffex/src/circular_buff/core_.rs:187-192 | Unpacking by masks and shifts reads the position fields of the word |
| RingWord.PackFields | crates/buffex/src/circular_buff/core_.rs:217-220 | Packing overwrites both positions and the reversion bit and nothing else |
| RingWord.PackUnpack | crates/buffex/src/circular_buff/core_.rs:180-220 | Pack and unpack are mutually inverse and keep the closed and standby flags |
| RingWord.TxClosedFlag | crates/buffex/src/circular_buff/core_.rs:932-937 | Testing, setting and clearing this flag on the word touches its own field only |
| RingWord.RxClosedFlag | crates/buffex/src/circular_buff/core_.rs:932-937 | The same for the read end |
| RingWord.TxStandbyFlag | crates/buffex/src/circular_buff/core_.rs:996-1035 | The same for the writer's standby bit |
| RingWord.RxStandbyFlag | crates/buffex/src/circular_buff/core_.rs:996-1035 | The same for the reader's standby bit |
| Ring.CommitsOnWords | crates/buffex/src/circular_buff/core_.rs:922-930 | A commit on fields is the program's unpack, advance and pack on the word |
| Ring.StepRefines | crates/buffex/src/circular_buff/core_.rs:515-564 | Every lend, copy, commit, close and arm keeps the invariant and does to the queue what it should: append what was put, remove what was taken, or nothing; a close sets its flag, arming and disarming their bit, and no other step changes a flag |
| Ring.CommitWriteStep | crates/buffex/src/circular_buff/core_.rs:852-869 | A write commit appends exactly the items put through the segment, though it was lent from an older load |
| Ring.CommitReadStep | crates/buffex/src/circular_buff/core_.rs:872-888 | A read commit removes exactly the items taken through the segment |
| Ring.RingIsBoundedFifo | crates/buffex/src/circular_buff/core_.rs:515-888 | Over every interleaving from an empty ring, for every legal capacity: all committed writes are all committed reads followed by the queue, which never exceeds the capacity |
| Ring.SlotIsModular | crates/buffex/src/circular_buff/core_.rs:805-822 | The cells of a region are those at `(start + i) mod capacity` |
| Ring.LiveRegionsAreDisjoint | crates/buffex/src/circular_buff/core_.rs:805-845 | Two live segments never share a cell, and each commit still fits the word as it is by then |
| Ring.ClosingMeansAllRead | crates/buffex/src/circular_buff/core_.rs:542-564 | The reader is told `Closing` if and only if an end is closed and everything committed has been committed as read |
| Ring.EofIsFinal | crates/buffex/src/circular_buff/core_.rs:542-564 | For a producer that stops once it has closed, `Closing` is final over every continuation |
| Ring.WriteLentExactly | crates/buffex/src/circular_buff/core_.rs:515-534 | A write is lent if and only if the space that unread items leave meets the demand, and then as much of it as the demand allows; a closed flag decides the error alone |
| Ring.ReadLentExactly | crates/buffex/src/circular_buff/core_.rs:542-564 | A read is lent if and only if the unread items meet the demand, or an end is closed and there is one; then as many as the demand allows; otherwise the error says whether an end is closed |
| Ring.WriteDelivers | crates/buffex/src/circular_buff/core_.rs:852-869 | From any reachable state with room for them, items that are lent for, put and committed stand at the end of the queue, all and in order |
| Ring.ReadDelivers | crates/buffex/src/circular_buff/core_.rs:872-888 | From any reachable state, what is lent, taken and committed is just what the queue began with |
| Ring.WriteAfterCloseIsSeen | crates/buffex/src/circular_buff/core_.rs:525-533 | A closed writer can still commit an item after the reader was told `Closing` |
| RingWake.StepKeeps | crates/buffex/src/circular_buff/core_.rs:972-1035 | Every single access of a wait, a fire, a commit or a close keeps the wake invariant of both ends |
| RingWake.NoLostWakeUp | crates/buffex/src/circular_buff/core_.rs:1346-1502 | Over every run, while both ends are open: a parked end whose demand is met has been woken or its peer is between commit and signal, and the peer's going on wakes it with its condition met |
| RingWake.LooksExactly | crates/buffex/src/circular_buff/core_.rs:1403-1411 | At either look a wait ends if and only if what it is for is there, or a close it looks at; after the second it parks otherwise |
| RingWake.WaitEnds | crates/buffex/src/circular_buff/core_.rs:1380-1418 | A wait whose condition holds ends: over every interleaving with the steps of the others it is awake after five of its own accesses at the most, with demand, wake slot and standby bit cleared |
| RingWake.ParkedWaitEnds | crates/buffex/src/circular_buff/core_.rs:1346-1502 | Joined with the wake-up: a parked end whose demand is met is woken by its peer's going on and, polled, returns with its fourth access, whatever happens in between |
| RingWake.DroppedWaitEnds | crates/buffex/src/circular_buff/core_.rs:1386-1398 | A wait that is dropped or cancelled leaves nothing behind either, after three accesses |
| RingWake.FireIsEarned | crates/buffex/src/circular_buff/core_.rs:972-992 | A fire signals only for a posted demand that the level it loaded meets, and never for a close |
| RingWake.RunsOnRing | crates/buffex/src/circular_buff/core_.rs:972-1035 | Every run of both ends with their waits and fires is a run of the ring machine and ends with the same ring |
| RingWake.WaitersNeverCollide | crates/buffex/src/circular_buff/core_.rs:1233-1267 | A posted demand finds the demand slot empty, and registering finds the wake slot empty or its own |
| RingWake.CanStopIs | crates/buffex/src/circular_buff/core_.rs:542-564 | What a waiter looks at before it parks is exactly the wake condition or a close |
| RingWake.CloseDoesNotWake | crates/buffex/src/circular_buff/circ_buff_.rs:394-495 | At either end: one that is parked and not yet woken stays so through its peer's close and fire; a reader even though it could stop |
| RingWake.NeverWoken | crates/buffex/src/circular_buff/circ_buff_.rs:394-495 | And so it does over every run from there, whatever the closed peer still commits and fires, until its own future is polled or dropped |
| RingWake.CloseLeavesAsleep | crates/buffex/src/circular_buff/core_.rs:895-920 | The close of a peer at rest leads there |
| RingWake.ParkedIsReachable | crates/buffex/src/circular_buff/core_.rs:1380-1418 | From an empty ring either end parks, registered and unwoken, with its peer at rest and both ends open |
| Segments.CurrentIsARun | crates/buffex/src/circular_buff/reclaim_.rs:84-95 | The current piece is a run of consecutive items, nonempty while items are left |
| Segments.RemainingIsTheRest | crates/buffex/src/circular_buff/reclaim_.rs:99-156 | The slices handed out add up to what is left, the current piece first |
| Segments.GatherBlit | crates/buffex/src/circular_buff/reclaim_.rs:84-95 | Writing into the current piece writes that run of the region and no cell outside it |
| Segments.MoveOnce | crates/abs_buff/src/buffer/segm_.rs:94-117 | One round moves at least one item, advances both segments by as many and keeps the order |
| Segments.MoveItems | crates/abs_buff/src/buffer/segm_.rs:172-193 | The move loops end and move exactly the smaller of the two rests, in order, and change nothing else |
| Segments.CopySlice | crates/abs_buff/src/buffer/segm_.rs:370-388 | Copies as many items as fit and touches no others |
| CircCore.FillPiece | crates/abs_buff/src/buffer/segm_.rs:802-856 | Whatever chunks, errors and pendings the device gives, the piece gets the next items of its stream in order; it stops only with the device or a full piece |
| CircCore.ReactInput | crates/buffex/src/circular_buff/circ_buff_.rs:728-763 | The whole segment, piece by piece: items of the stream in order until it is full or the device stops |
| CircCore.DrainPiece | crates/abs_buff/src/buffer/segm_.rs:745-799 | The device takes a front of the piece, in order |
| CircCore.ReactOutput | crates/buffex/src/circular_buff/circ_buff_.rs:820-855 | The device takes a front of the segment, in order, until it is empty or the device stops |
| CircCore.WriteCommits | crates/buffex/src/circular_buff/reclaim_.rs:341-352 | A dropped write segment is one commit of the ring machine: the queue grows by the items written past the writer |
| CircCore.ReadCommits | crates/buffex/src/circular_buff/reclaim_.rs:508-519 | A dropped read segment removes a front of the queue |
| CircCore.FillKeeps | crates/buffex/src/circular_buff/core_.rs:805-822 | Filling a lent region leaves the queue alone and puts what was given just past the writer |
| CircCore.CircCore.constructor | crates/buffex/src/circular_buff/core_.rs:449-466 | A fresh core is empty and valid |
| CircCore.CircCore.Conservation | crates/buffex/src/circular_buff/core_.rs:595-687 | In every state between calls: behind an active writer the user has read the front of the device's bytes in order and the ring has the rest; before an active reader the device has taken the front of what was committed; between two devices, what one gave is what the other took and the ring's contents |
| CircCore.CircCore.AdvanceWrite | crates/buffex/src/circular_buff/core_.rs:852-869 | Commits exactly `n` items, then drains an active reader until it settles; the mutual recursion with the pumps ends |
| CircCore.CircCore.AdvanceRead | crates/buffex/src/circular_buff/core_.rs:872-888 | Commits exactly `n` items as read, then refills from an active writer until it settles |
| CircCore.CircCore.PumpInputSync | crates/buffex/src/circular_buff/core_.rs:595-634 | Works only for an active writer with a passive reader; takes nothing when an end is closed; ends, and then an end is closed, the ring is full or the device has stopped; the count is what was committed |
| CircCore.CircCore.PumpInputOnce | crates/buffex/src/circular_buff/core_.rs:605-632 | One round; it asks for another only after it moved something |
| CircCore.CircCore.PumpOutputSync | crates/buffex/src/circular_buff/core_.rs:647-687 | The mirror image: delivers nothing past a closed read end; ends with the read end closed, the ring empty or the device stopped |
| CircCore.CircCore.PumpOutputOnce | crates/buffex/src/circular_buff/core_.rs:657-684 | One round of it |
| CircCore.CircCore.ReadAt | crates/buffex/src/circular_buff/core_.rs:542-564 | On the packed word, the verdict of the machine's lending rule |
| CircCore.CircCore.WriteAt | crates/buffex/src/circular_buff/core_.rs:515-534 | The same for writing |
| CircCore.CircCore.TryRead | crates/buffex/src/circular_buff/core_.rs:392-416 | A try that is refused for lack of data has pumped the device until it settled |
| CircCore.CircCore.TryWrite | crates/buffex/src/circular_buff/core_.rs:343-366 | The same for a lack of space |
| CircCore.CircCore.Write | crates/buffex/src/circular_buff/reclaim_.rs:301-352 | A user's write commits exactly the items moved out of the user's segment: the smaller of its rest and what the deciding word lends, the word at the call or, if that refused, the one after the pump; nothing is written only when closed or the device has settled |
| CircCore.CircCore.Read | crates/buffex/src/circular_buff/reclaim_.rs:473-519 | A user's read puts the next committed items into the user's segment: the smaller of its room and what the deciding word lends; with room left it comes back empty-handed only when closed or the device has settled |
| CircCore.CircCore.SetClosed | crates/buffex/src/circular_buff/core_.rs:932-937 | Sets closed flags on the packed word and changes nothing else of it |
| CircCore.CircCore.CloseTx | crates/buffex/src/circular_buff/core_.rs:895-899 | Sets its own flag and not the other, loses nothing and drains an active reader until it settles |
| CircCore.CircCore.CloseRx | crates/buffex/src/circular_buff/core_.rs:917-920 | Sets its own flag and not the other, and changes no item |
| CircCore.CircCore.PipeInputOnce | crates/buffex/src/circular_buff/core_.rs:1067-1094 | One device read into one contiguous piece, all of the free space up to the end of the buffer, committed at once, though ends are closed meanwhile; none when an end is closed |
| CircCore.CircCore.PipeOutputOnce | crates/buffex/src/circular_buff/core_.rs:1099-1124 | One device write from one contiguous piece, all of the data up to the end of the buffer, committed at once, though ends are closed meanwhile; none when the read end is closed |
| CircCore.CircCore.Pipe | crates/buffex/src/circular_buff/spsc_.rs:612-641 | After any number of rounds, with closes between them and during the device calls: input taken is output delivered and what is left in the ring; uncancelled it ends only closed for writing, and then either closed for reading too, whatever is left, or with nothing left; going on it has delivered, or there was nothing or the device stopped, and taken, or there was no space, an end closed or the device stopped |
| CircCore.CircCore.RunRound | crates/buffex/src/circular_buff/spsc_.rs:612-641 | One round: it takes what it can and delivers what it can, and ends the pipeline if and only if it was cancelled, found both ends closed at its start, or made no progress and is closed for writing and empty |
| CircCore.CircCore.IsDrainedClosing | crates/buffex/src/circular_buff/spsc_.rs:625-632 | Closed for writing with everything read |
| RwLock.ActiveBit | crates/atomic_sync/src/rwlock/preemptive/rwlock_.rs:544-555 | At every width, the writer-active operations read and write that field alone |
| RwLock.QueuedBit | crates/atomic_sync/src/rwlock/preemptive/rwlock_.rs:557-568 | The same for the writer-queued bit |
| RwLock.UpgradeBit | crates/atomic_sync/src/rwlock/preemptive/rwlock_.rs:570-581 | The same for the upgrade-active bit |
| RwLock.CountField | crates/atomic_sync/src/rwlock/preemptive/rwlock_.rs:583-585 | Masking reads the reader count |
| RwLock.AdmitsIs | crates/atomic_sync/src/rwlock/preemptive/rwlock_.rs:600-731 | Each operation's `expect` on the word, as a condition on bits and count |
| RwLock.DesiredIs | crates/atomic_sync/src/rwlock/preemptive/rwlock_.rs:600-731 | Each operation's `desire` on the word, as a change of bits and count |
| RwLock.StepKeepsExactly | crates/atomic_sync/src/rwlock/preemptive/rwlock_.rs:600-731 | Each operation keeps the accounting of live guards if and only if it is not one of the two spoiling calls |
| RwLock.SpoiledStep | crates/atomic_sync/src/rwlock/preemptive/rwlock_.rs:657-705 | What those two leave: a count spilled into the queued bit, or two upgradable readers behind one bit |
| RwLock.NestedDowngradeLeaks | crates/atomic_sync/src/rwlock/preemptive/rwlock_.rs:695-705 | After a nested downgrade and both drops, the second of them refused, the word is that of a lock with one reader, whom nobody holds |
| RwLock.LeakedReaderStays | crates/atomic_sync/src/rwlock/preemptive/rwlock_.rs:638-655 | With a reader in the word whom nobody holds no writer gets in, over every legal run of the guards there really are |
| RwLock.NestedDowngradeBarsWriters | crates/atomic_sync/src/rwlock/preemptive/rwlock_.rs:673-705 | The two joined: from the nested downgrade through both drops to the end of any later legal run |
| RwLock.OverflowIsReachable | crates/atomic_sync/src/rwlock/preemptive/rwlock_.rs:657-671 | As many readers as there may be, from a fresh lock, keep the accounting, and then an upgradable reader breaks it |
| RwLock.NestedIsReachable | crates/atomic_sync/src/rwlock/preemptive/upgrade_.rs:242-246 | The state it starts from is reached by one upgradable reader and its in-place upgrade |
| RwLock.AllRuns | crates/atomic_sync/src/rwlock/preemptive/rwlock_.rs:504-731 | Over every run, for every width: the count is the readers plus upgradable readers, the bits say whether an upgradable reader and a writer are live, at most one each, and a writer is alone but for the reader it was upgraded from |
| RwLock.AdmittedExactly | crates/atomic_sync/src/rwlock/preemptive/rwlock_.rs:296-389 | Exactly which live guards let each attempt succeed; drops and downgrades always succeed, so their unreachable branches are |
| RwLock.QueuedShutsOut | crates/atomic_sync/src/rwlock/preemptive/rwlock_.rs:632-650 | While a writer is queued no reader gets in, until a writer is dropped, over every run |
| RwLock.QueuedAfter | crates/atomic_sync/src/rwlock/preemptive/rwlock_.rs:600-731 | Who changes the queued bit: set by a queuing writer, cleared by a dropped writer, kept by every other operation |
| RwLock.WriterDropAdmits | crates/atomic_sync/src/rwlock/preemptive/rwlock_.rs:600-611 | After a writer is dropped readers get in again, queued writers or not; other upgradable readers and writers do unless the upgradable reader it came from is live |
| RwLock.RwLockState.Update | crates/atomic_sync/src/rwlock/preemptive/rwlock_.rs:526-533 | One atomic update is one step of the specification; the accounting holds after it if and only if it was not a spoiling call |
| RwLock.RwLockState.TryWriteGuard | crates/atomic_sync/src/rwlock/preemptive/rwlock_.rs:638-650 | Succeeds if and only if no guard is live; a refused writer leaves the queued bit set whatever happened in between |
| RwLock.RwLockState.TryUpgrade | crates/atomic_sync/src/rwlock/preemptive/rwlock_.rs:348-358 | Succeeds if and only if the upgradable reader is alone, and keeps it |
| RwLock.RwLockState.TryUpgradeToWriter | crates/atomic_sync/src/rwlock/preemptive/rwlock_.rs:333-346 | The consuming upgrade in its two updates, with others in between: just a writer remains, or the reader is handed back |
| RwLock.RwLockState.UpgradeWithCancel | crates/atomic_sync/src/rwlock/preemptive/upgrade_.rs:261-279 | The loop comes to what `Outcome` says, for all that other threads do between its tries, and holds the lock exactly when it succeeds |
| RwLock.OutcomeMeans | crates/atomic_sync/src/rwlock/preemptive/upgrade_.rs:261-279 | That is: the lock if and only if some try finds our reader alone with no cancellation before it, and a cancellation if and only if the token is cancelled before any such try |
| RwLock.ForeignKeepsOurs | crates/atomic_sync/src/rwlock/preemptive/upgrade_.rs:60-71 | No operation on other guards takes our upgradable reader away or makes a writer beside it |
| FrameCodec.BigEndianRoundTrip | crates/smux_v1/src/handshake/codec_.rs:297-310 | Decoding undoes encoding for every value that fits the width |
| FrameCodec.FitsExactly | crates/smux_v1/src/handshake/codec_.rs:282-291 | A value fits a width if and only if its narrowest encoding is no wider |
| FrameCodec.BuiltLength | crates/smux_v1/src/handshake/codec_.rs:73-99 | A frame takes the narrowest entries and seven bytes, 43 at most |
| FrameCodec.EncodeBasicEntry | crates/smux_v1/src/handshake/codec_.rs:282-300 | Writes the entry when it fits and nothing when it does not |
| FrameCodec.BuildFrame | crates/smux_v1/src/handshake/codec_.rs:73-99 | Fills the buffer with the frame if and only if it fits, and touches nothing behind it |
| FrameCodec.DecodeValue | crates/smux_v1/src/handshake/codec_.rs:303-310 | The shifting accumulator never overflows 64 bits and gives the big-endian value |
| FrameCodec.ParseFrame | crates/smux_v1/src/handshake/codec_.rs:105-200 | The parsing loop gives the verdict of the specification |
| FrameLaws.RoundTrip | crates/smux_v1/src/handshake/codec_.rs:73-200 | A built frame, followed by anything, parses to the same magic and values and its own length, if and only if the magic is one of the four and no value is zero |
| FrameLaws.StableUnderExtension | crates/smux_v1/src/handshake/codec_.rs:105-200 | A verdict other than a request for more stands whatever follows |
| FrameLaws.NeedMoreMeans | crates/smux_v1/src/handshake/codec_.rs:135-185 | What a request for more says of the whole: it is for missing bytes, not past the frame, and past the limit it means too large |
| FrameLaws.ProperPrefixWantsMore | crates/smux_v1/src/handshake/codec_.rs:105-200 | On a proper prefix of an accepted frame the parser asks for bytes it lacks and never past the frame |
| FrameLaws.RequestsFitTheBuffer | crates/smux_v1/src/handshake/agent.rs:216-229 | Every request is for more than there is and for 49 bytes at most, below the reader's 64 |
| FrameLaws.BuiltIsMinimal | crates/smux_v1/src/handshake/codec_.rs:128-199 | Any accepted frame is no shorter than the built frame of its values, which parses to the same values |
| FrameLaws.LargerLimit | crates/smux_v1/src/handshake/codec_.rs:105-200 | A larger limit changes a verdict only where the smaller said too large |
| FrameForms.AcceptedExactly | crates/smux_v1/src/handshake/codec_.rs:105-200 | The parser accepts a frame of length `n` if and only if those `n` bytes, within the limit, are one of its wire forms: entries of distinct keys in any order, width and reserved bits, and one of the two checksums over all that precedes it |
| FrameForms.AcceptsAnyForm | crates/smux_v1/src/handshake/codec_.rs:105-200 | Every such form is accepted, whatever follows, with just what its entries tell |
| FrameForms.WrongChecksumRefused | crates/smux_v1/src/handshake/codec_.rs:159-172 | Every such form with any other bytes in place of its checksum, of either kind, is answered `ChecksumErr` |
| FrameForms.BuiltWithWrongChecksum | crates/smux_v1/src/handshake/codec_.rs:73-172 | So is a built frame whose last two bytes are replaced by different ones |
| FrameForms.DecidesSo | crates/smux_v1/src/handshake/codec_.rs:128-199 | Behind any entries, what each continuation is answered: more bytes, too large, unsupported, malformed, a wrong checksum, or the frame |
| Handshake.ByteStream.ReadExact | crates/smux_v1/src/handshake/agent.rs:173-200 | An exact read that takes what it reads, which the code's own is not: fills the range with the next bytes, or reports that the stream ended |
| Handshake.ReadFrame | crates/smux_v1/src/handshake/agent.rs:207-248 | With an exact read that takes what it reads: the incremental loop ends with the verdict on the whole stream and takes an accepted frame to its last byte and no further |
| Handshake.WriteFrame | crates/smux_v1/src/handshake/agent.rs:251-276 | Puts as much of the frame into the write segment as its current piece holds, and answers Ok however much that is |
| Handshake.WholeExactly | crates/smux_v1/src/handshake/agent.rs:262-270 | In the ring a frame goes out whole if and only if it ends before the end of the buffer |
| Handshake.SettledOptions | crates/smux_v1/src/handshake/codec_.rs:203-250 | The agreed options field by field: invited or local, the time-out in whole seconds |
| Handshake.CompleteInvite | crates/smux_v1/src/handshake/codec_.rs:238-250 | The invited entries replace exactly their own local values |
| Handshake.CompleteValues | crates/smux_v1/src/handshake/codec_.rs:253-267 | All four values, or none when one is missing |
| Handshake.ConfirmsExactly | crates/smux_v1/src/handshake/codec_.rs:269-277 | A confirmation passes if and only if it carries the four expected values |
| Handshake.CheckInvite | crates/smux_v1/src/handshake/agent.rs:297-311 | The loop over the invitation gives the first error in order, or the proposal |
| Handshake.ProposedIsInvited | crates/smux_v1/src/handshake/agent.rs:297-311 | A proposal is just what the invitation names, and holds no zero |
| Handshake.StepKeeps | crates/smux_v1/src/handshake/agent.rs:279-441 | Every step of either side keeps what may be under way and what the two may hold |
| Handshake.Agreement | crates/smux_v1/src/handshake/agent.rs:279-441 | With such a read, over every joint run, with any failures and any frames cut short: sides that return Ok hold the agreed options, and an initiator returns Ok only after the responder passed the confirmation |
| Handshake.CutFrameStops | crates/smux_v1/src/handshake/agent.rs:251-276 | After a frame that was cut short no willing side can act any more, and the initiator has not returned Ok |
| Handshake.WillingRunsComplete | crates/smux_v1/src/handshake/agent.rs:279-441 | With such a read, valid inputs, limits of at least 43 and nobody unwilling: as long as each frame is written whole every run is the same five steps, never stuck before them, and ends with both Ok; otherwise it is stuck |
| HandshakeRefusal.ProposePasses | crates/smux_v1/src/handshake/agent.rs:297-311 | An invitation passes if and only if its keys are basic and distinct and its values not zero; otherwise its first bad entry gives the error |
| HandshakeRefusal.Invited | crates/smux_v1/src/handshake/agent.rs:297-312 | A passing invitation is sent, any other sends nothing and fails |
| HandshakeRefusal.Answered | crates/smux_v1/src/handshake/agent.rs:385-408 | What the responder makes of a whole first frame, in any state: it takes it and no byte more, fails without a word on any other magic, refuses with the rejection, or accepts with the settled values |
| HandshakeRefusal.Confirmed | crates/smux_v1/src/handshake/agent.rs:314-349 | What the initiator makes of a whole answer: a rejection or a wrong magic fails without a word; an incomplete acceptance and a refused one are answered with the rejection; an accepted one is echoed |
| HandshakeRefusal.Committed | crates/smux_v1/src/handshake/agent.rs:410-440 | What the responder makes of a whole confirmation: a wrong magic and other values are answered with the rejection; only its own values let it return Ok |
| HandshakeRefusal.Finished | crates/smux_v1/src/handshake/agent.rs:351-363 | What the initiator makes of the last frame: only an empty confirmation lets it return Ok |
| HandshakeRefusal.Unread | crates/smux_v1/src/handshake/agent.rs:207-248 | A stream that gives no frame makes its reader fail with the reason, without a word |
| HandshakeRefusal.OkNeedsConsent | crates/smux_v1/src/handshake/agent.rs:279-441 | Over every joint run, with any failures and any frames cut short: a side returns Ok only with the consent of both callers, and once either has refused neither side ever does |
| HandshakeRefusal.RefusedByResponder | crates/smux_v1/src/handshake/agent.rs:395-405 | A refusing responder: a front of the rejection goes out, whole when there is room, and the initiator that reads it fails as rejected, or as one whose peer is gone |
| HandshakeRefusal.RefusedByInitiator | crates/smux_v1/src/handshake/agent.rs:336-346 | A refusing initiator: a front of the rejection goes out in place of the confirmation, and the responder that reads it fails on it, or as one whose peer is gone |
| HandshakeOverRing.CopySlices | crates/smux_v1/src/handshake/agent.rs:185-192 | The code's own copy: all lent slices to the front of the range, a panic exactly when they hold more than it, and nothing taken |
| HandshakeOverRing.OverrunsExactly | crates/buffex/src/circular_buff/core_.rs:542-564 | An exact demand is lent more than `n` if and only if more than `n` are there |
| HandshakeOverRing.UntakenGrows | crates/buffex/src/circular_buff/reclaim_.rs:508-519 | Over every run in which the reader takes nothing the queue only grows |
| HandshakeOverRing.NoFrameOverRing | crates/smux_v1/src/handshake/agent.rs:207-248 | Over the circular buffer no party ever reads a frame, whatever arrives when and whichever end closes: it panics, waits or returns an error |
| HandshakeOverRing.WholeFramePanics | crates/smux_v1/src/handshake/agent.rs:173-200 | A whole frame in the ring makes the very first read panic |
| HandshakeOverRing.FirstReadExactly | crates/smux_v1/src/handshake/agent.rs:173-200 | What the first read comes to, by what is in the ring and whether it is closed: a panic, another poll, an error, or just the magic that is then read once more |
| Multipart.PrefixMaxIs | crates/abs_buff_utils/src/multipart/prefix.rs:45-56 | `PREFIX_MAX` is what `PREFIX_LEN` bytes can tell |
| Multipart.RoundTrip | crates/abs_buff_utils/src/multipart/encode_.rs:146-314 | For any chunking, chunks and terminator decode to exactly the bytes that went in, and what follows is untouched |
| Multipart.EofOnlyAfterZeroPrefix | crates/abs_buff_utils/src/multipart/decode_.rs:300-345 | Whatever decodes to an end of stream is the encoding of chunks that fit, up to its first zero prefix |
| Multipart.CutIsNeverEof | crates/abs_buff_utils/src/multipart/decode_.rs:300-380 | A stream cut anywhere before the end of its terminator never ends with Eof and gives a front of the payload |
| MultipartEncode.Send | crates/abs_buff_utils/src/multipart/encode_.rs:146-280 | For every schedule of arrivals, refusals, closes, segment sizes and tokens: what was written is the wire form of the `c` bytes taken, each chunk from 1 to `PREFIX_MAX - 1`; the terminator follows exactly when the source counted as drained or a wait was refused under a tag that reads as an end, and only then does it decode to an end of stream; over a source that tells its end and whose read end stays open, an end of stream means that the source was taken whole; it stops earlier only for a token, a refusal or a missing target segment |
| MultipartEncode.SendUndisturbed | crates/abs_buff_utils/src/multipart/encode_.rs:146-280 | Undisturbed, over a source that tags its end `Closing` or `Drained`: everything is sent and the stream ended, whatever arrives when and however large the segments are |
| MultipartEncode.Poll | crates/abs_buff_utils/src/multipart/encode_.rs:168-203 | What a round finds before it writes: bytes, a wait that brought some, an end, or an error; a starved or shut source decides it |
| MultipartEncode.PartialIsCut | crates/abs_buff_utils/src/multipart/encode_.rs:204-275 | What is written without a terminator decodes to the bytes taken and no end of stream |
| MultipartEncode.DishonestRun | crates/abs_buff_utils/src/multipart/encode_.rs:184-197 | The other half: over any source that tags a cancellation or a fault as an end, whatever it holds, this run writes the terminator first and answers without an error, and it decodes to a complete, empty stream |
| MultipartEncode.CancelledWaitLooksFinished | crates/abs_buff_utils/src/multipart/encode_.rs:184-197 | That run over the circular buffer: nothing has arrived and the wait is cancelled |
| MultipartEncode.ShutSourceLooksFinished | crates/abs_buff_utils/src/multipart/encode_.rs:170-181 | A source whose read end is closed early fails the same way, whatever its tags |
| MultipartEncode.SendChunk | crates/abs_buff_utils/src/multipart/encode_.rs:204-275 | One chunk of what is there, as much as a prefix can announce; on an error what was written of it |
| MultipartEncode.SendPayload | crates/abs_buff_utils/src/multipart/encode_.rs:234-275 | The announced bytes through any target segments; `Invalid` exactly when a read was refused under a tag that reads as an end, never for the end itself, since they were there |
| MultipartEncode.FillSegment | crates/abs_buff_utils/src/multipart/encode_.rs:243-270 | Fills one target segment, in order, and never past the chunk |
| MultipartEncode.Source.IsDrainedClosing | crates/buffex/src/circular_buff/spsc_.rs:711-717 | True of a closed read end too, whatever there is |
| MultipartDecode.TakeSome | crates/abs_buff_utils/src/multipart/decode_.rs:138-146 | Taking bytes inside a chunk takes the next of the payload |
| MultipartDecode.RawSource.Offer | crates/buffex/src/circular_buff/core_.rs:542-564 | A segment within the demand, below its lower bound only at the end of the stream or with a closed read end |
| MultipartDecode.MultipartRecv.constructor | crates/abs_buff_utils/src/multipart/decode_.rs:237-246 | A fresh decoder has delivered nothing and owes the whole payload |
| MultipartDecode.MultipartRecv.Read | crates/abs_buff_utils/src/multipart/decode_.rs:276-385 | For every schedule: a segment holds bytes of the current payload only; Eof exactly when a zero prefix was read, and then all was delivered; a short prefix and a source at its end mean the stream was cut there; a refusal loses nothing; over a source that tells its end and whose read end stays open, `Invalid` means a cut stream; it reports a cancellation exactly when its token is cancelled, a refusal only when there was one, and serves what the caller wants at least while the chunk has more |
| MultipartDecode.MultipartRecv.ReadPayload | crates/abs_buff_utils/src/multipart/decode_.rs:346-385 | A segment of the payload as large as the source offers: the caller's lower bound holds while the chunk has more than that, and is waived otherwise |
| MultipartDecode.DishonestRead | crates/abs_buff_utils/src/multipart/decode_.rs:309-318 | The other half: over any source that tags a cancellation or a fault as an end a refused read is answered `Invalid`, whatever the stream holds, with nothing taken |
| MultipartDecode.CancelledReadLooksCut | crates/abs_buff_utils/src/multipart/decode_.rs:309-318 | That read over the circular buffer, before a whole stream; `Cancelled` is never the answer to a refusal there |
| MultipartDecode.ShutReadTearsPrefix | crates/abs_buff_utils/src/multipart/decode_.rs:320-330 | With the read end closed early a prefix of two or four bytes is torn: `Invalid`, and a byte of it is gone |
| MultipartDecode.MultipartRecv.ReadPrefix | crates/abs_buff_utils/src/multipart/decode_.rs:300-345 | Reads and drops a length prefix, ends the stream at zero, and tells a prefix cut short from one torn by a closed read end |
| MultipartDecode.MultipartRecv.TakePrefix | crates/abs_buff_utils/src/multipart/decode_.rs:322-344 | After a whole prefix the source stands at the start of a payload of that length |
| MultipartDecode.MultipartRecv.DropSegm | crates/abs_buff_utils/src/multipart/decode_.rs:138-146 | A dropping segment lowers the count by just what was taken, which was the next payload |
| MultipartDecode.ReceiveAll | crates/abs_buff_utils/src/multipart/decode_.rs:276-385 | A caller that takes any parts of the segments and tries again after errors gets a front of the payload, unless a prefix was torn, and all of it with the end of stream as the last answer |
| MultipartDecode.Transfer | crates/abs_buff_utils/src/multipart/encode_.rs:146-280 | End to end, with anything behind the encoder's output: from a source taken whole and an undisturbed last read the bytes that come out are those that went in and the last answer is Eof; so it is whenever neither side is disturbed; over sound sources Eof alone means that all came out, and `Invalid` that the stream was cut |
| CancelTree.Inner.Cancel | crates/cancel_src/src/lib.rs:125-144 | Only the first call cancels; it resolves the futures and comes away with all callbacks |
| CancelTree.Inner.Register | crates/cancel_src/src/lib.rs:148-160 | Kept under a fresh id, or handed back to be run at once |
| CancelTree.Inner.Unregister | crates/cancel_src/src/lib.rs:162-165 | Removes exactly the entries of that id, in place and in order |
| CancelTree.Inner.CancelFuture | crates/cancel_src/src/lib.rs:168-180 | Resolved at once if and only if the node is cancelled |
| CancelTree.StepKeeps | crates/cancel_src/src/lib.rs:123-181 | Every lock section and every callback, by any thread, keeps each callback in one place and each live child linked to its parent |
| CancelTree.CancellationReachesDescendants | crates/cancel_src/src/lib.rs:473-486 | Over every interleaving: when all calls have returned, every descendant of a cancelled node that is linked to it through live nodes is cancelled |
| CancelTree.CancelledExactly | crates/cancel_src/src/lib.rs:471-486 | When all calls have returned, a live node with live ancestors is cancelled if and only if `cancel` was called on it or on one of them |
| CancelTree.OnlyDescendantsAreCancelled | crates/cancel_src/src/lib.rs:471-486 | In every reachable state: whoever is cancelled was named by a call of `cancel` or has an ancestor that was, so a child never cancels its parent |
| CancelTree.SpawnDecides | crates/cancel_src/src/lib.rs:471-486 | A spawned child starts live and not cancelled, changes nobody else, and once its parent is cancelled, before the spawn or after it, it is too when all calls have returned |
| CancelTree.AtMostOnce | crates/cancel_src/src/lib.rs:125-160 | No callback runs twice |
| CancelTree.ExactlyOnce | crates/cancel_src/src/lib.rs:125-165 | Once its node is cancelled, a callback runs exactly once by the time all calls have returned, unless it was removed before that lock section; then never |
| CancelTree.RegistrationDecides | crates/cancel_src/src/lib.rs:146-165 | Read off the acts behind a registration: dropped before the cancelling lock section, or with a node that goes before it, its callback never runs, nor without a cancellation; otherwise it has run exactly once when all calls have returned; on a node already cancelled it is run all the same |
| CancelTree.HeldStep | crates/cancel_src/src/lib.rs:162-165 | One step of anybody: a drop of just this registration takes its callback out; otherwise the node keeps it, unless this is the cancelling lock section |
| CancelTree.StepTakesNone | crates/cancel_src/src/lib.rs:162-165 | After the cancelling lock section nothing can remove a callback any more |
| CancelTree.FuturesFollow | crates/cancel_src/src/lib.rs:168-180 | A future is unresolved if and only if its node is live and not cancelled, in every reachable state |
| CancelTree.FutureDecides | crates/cancel_src/src/lib.rs:168-180 | A future made now, in every continuation: unresolved if and only if its node is still live and not cancelled |
| CancelTree.DropResolves | crates/cancel_src/src/lib.rs:167-180 | When the last handle of a node goes, its pending futures resolve although nobody cancelled |
| CancelTree.WalkEnds | crates/cancel_src/src/lib.rs:140-143 | In every run the steps of all threads are bounded by what was waiting at the start and what was registered since |

## Left out

- Memory orderings, raw pointers, pinning and lifetimes; waiters are identities and the borrow rules are conditions on actions.
- The futures that the macros generate, and every trait and adapter around the cores: an await is a point where others act.
- RingWake.NoLostWakeUp: is about passive ends and data or space; a close wakes nobody (`RingWake.CloseDoesNotWake`), and the parking of an active end (`park_producer`, `park_consumer`) is not part of this model.
- CircCore.CircCore.Pipe: a round without progress goes to the next round, where the program parks until it is woken.
- The object `CircCore` runs one call at a time, with one device per side; the interleaving of both ends, and a segment held across other steps, is in `Ring`.
- RwLock.RwLockState.UpgradeWithCancel: stands for the other waiting loops, `may_break_with_impl_`, which differ in the attempt they repeat only.
- Forgetting a guard without its drop, and the data behind the lock.
- Handshake.ByteStream.ReadExact: takes exactly the bytes asked for from an ordered stream; `HandshakeOverRing` has what `read_exact_into_` does instead over the ring, and readers over other buffers are not part of this model.
- Errors of the transport and cancellations are a party giving up at any moment, with one of their errors.
- `Demand::compromise` and the `take_segm` family: only the lower and upper bound of a demand are used, and an upper bound is inclusive, as in the ring.
- The older `ring_buffer`, the sequential lock, the spin mutexes, `mem_vfs`, the device adapters, the builders and all formatting code: plumbing, unfinished, or one-bit cases of what is here.
