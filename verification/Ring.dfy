/** The single-producer single-consumer ring as a machine of atomic steps. Each end
    lends a region from one load of the state word, moves items through it while the
    other end runs on, and commits what it moved with one atomic update when the
    region is dropped. The machine works on the decoded word; module RingWord shows
    that the bit arithmetic of the program computes the same fields. */
module Ring {
  import opened Common
  import opened RingWord

  // -------------------------------------------------------------------------
  // Cells
  // -------------------------------------------------------------------------

  /** The physical index of the `i`-th item of a region that starts at `start`. */
  function Slot(start: nat, i: nat, cap: nat): (s: nat)
    requires start < cap && i <= cap
    ensures i < cap ==> s < cap
  {
    if i < cap - start then start + i else i - (cap - start)
  }

  lemma SlotIsModular(start: nat, i: nat, cap: nat)
    requires start < cap && i < cap
    ensures Slot(start, i, cap) == (start + i) % cap
  {
    Lap(start + i, cap);
  }

  /** The `n` items from `start` on, in ring order. */
  function Window<T>(cells: seq<T>, start: nat, n: nat): (w: seq<T>)
    requires start < |cells| && n <= |cells|
    ensures |w| == n
    ensures forall i :: 0 <= i < n ==> w[i] == cells[Slot(start, i, |cells|)]
  {
    seq(n, i requires 0 <= i < n => cells[Slot(start, i, |cells|)])
  }

  // -------------------------------------------------------------------------
  // State and steps
  // -------------------------------------------------------------------------

  /** A live segment: where it starts, how much was lent, and the items that passed
      through it so far. Its offset is the number of those items. */
  datatype Lend<T> = Idle | Lent(start: nat, take: nat, items: seq<T>)

  /** `sent` and `got` log the items committed by the two ends. */
  datatype Ring<T> = Ring(cells: seq<T>, word: Fields, tx: Lend<T>, rx: Lend<T>, sent: seq<T>, got: seq<T>) {

    function Cap(): nat { |cells| }

    function Pos(): IoPos { word.Pos(|cells|) }

    ghost predicate Shape() {
      word.Valid() && Pos().Valid()
    }

    function Data(): nat
      requires Shape()
    {
      Pos().DataSize()
    }

    function Free(): nat
      requires Shape()
    {
      Pos().FreeSize()
    }

    /** The queue the ring stands for. */
    ghost function Queue(): seq<T>
      requires Shape() && Data() <= Cap()
    {
      Window(cells, word.rp, Data())
    }
  }

  datatype Error = Closing | Stuffed(wp: nat) | Drained(rp: nat)

  /** `try_write_at`: lends `(start, take)` when the free space meets the demand. */
  function TryWriteAt(word: Fields, cap: nat, min: nat, max: nat): Result<(nat, nat), Error>
    requires word.Pos(cap).Valid()
  {
    var free := word.Pos(cap).FreeSize();
    if free == 0 || free < min then
      Err(if word.txClosed then Closing else Stuffed(word.wp))
    else
      Ok((word.wp, Min(max, free)))
  }

  /** `try_read_at`: a closed end waives the lower bound; `Closing` only when empty. */
  function TryReadAt(word: Fields, cap: nat, min: nat, max: nat): Result<(nat, nat), Error>
    requires word.Pos(cap).Valid()
  {
    var ready := word.Pos(cap).DataSize();
    if ready == 0 then
      Err(if word.txClosed || word.rxClosed then Closing else Drained(word.rp))
    else if ready < min && !word.txClosed && !word.rxClosed then
      Err(Drained(word.rp))
    else
      Ok((word.rp, Min(max, ready)))
  }

  datatype Action<T> =
    | LendWrite(min: nat, max: nat)      // one load; may fail and change nothing
    | Put(item: T)                       // the next item of the write segment
    | Scribble(i: nat, item: T)          // raw access to the lent cells past the offset
    | CommitWrite                        // the write segment drops
    | LendRead(min: nat, max: nat)
    | Take                               // the next item of the read segment
    | CommitRead
    | CloseTx | CloseRx
    | SetStandby(tx: bool, on: bool)     // arming and disarming a waiter

  /** What the borrow rules of the two ends allow: one live segment per end, and no
      access outside of it. */
  ghost predicate Enabled<T>(r: Ring<T>, a: Action<T>) {
    match a
    case LendWrite(_, _) => r.tx.Idle?
    case Put(_) => r.tx.Lent? && |r.tx.items| < r.tx.take
    case Scribble(i, _) => r.tx.Lent? && |r.tx.items| <= i < r.tx.take
    case CommitWrite => r.tx.Lent?
    case LendRead(_, _) => r.rx.Idle?
    case Take => r.rx.Lent? && |r.rx.items| < r.rx.take
    case CommitRead => r.rx.Lent?
    case _ => true
  }

  /** Commit by the writer: `advance_write` as one atomic update of the word. */
  function CommitWp(word: Fields, cap: nat, n: nat): Fields
    requires 0 < cap
  {
    var p := word.Pos(cap).AdvanceWp(n);
    word.(rv := p.rv, rp := p.rp, wp := p.wp)
  }

  function CommitRp(word: Fields, cap: nat, n: nat): Fields
    requires 0 < cap
  {
    var p := word.Pos(cap).AdvanceRp(n);
    word.(rv := p.rv, rp := p.rp, wp := p.wp)
  }

  /** The two commits on fields are the program's unpack, advance and pack on words. */
  lemma CommitsOnWords(w: Word, cap: nat, n: nat)
    requires Decode(w).Pos(cap).Valid()
    ensures Pack(Unpack(w, cap).AdvanceWp(n), w) == Encode(CommitWp(Decode(w), cap, n))
    ensures Pack(Unpack(w, cap).AdvanceRp(n), w) == Encode(CommitRp(Decode(w), cap, n))
  {
    hide Pack, Unpack, Decode, Encode;
    UnpackFields(Decode(w), cap);
    PackFields(Unpack(w, cap).AdvanceWp(n), Decode(w));
    PackFields(Unpack(w, cap).AdvanceRp(n), Decode(w));
  }

  ghost function Step<T>(r: Ring<T>, a: Action<T>): Ring<T>
    requires Inv(r) && Enabled(r, a)
  {
    match a
    case LendWrite(min, max) =>
      (match TryWriteAt(r.word, r.Cap(), min, max)
       case Ok((start, take)) => r.(tx := Lent(start, take, []))
       case Err(_) => r)
    case Put(item) =>
      r.(cells := r.cells[Slot(r.tx.start, |r.tx.items|, r.Cap()) := item],
         tx := r.tx.(items := r.tx.items + [item]))
    case Scribble(i, item) =>
      r.(cells := r.cells[Slot(r.tx.start, i, r.Cap()) := item])
    case CommitWrite =>
      r.(word := CommitWp(r.word, r.Cap(), |r.tx.items|), tx := Idle, sent := r.sent + r.tx.items)
    case LendRead(min, max) =>
      (match TryReadAt(r.word, r.Cap(), min, max)
       case Ok((start, take)) => r.(rx := Lent(start, take, []))
       case Err(_) => r)
    case Take =>
      r.(rx := r.rx.(items := r.rx.items + [r.cells[Slot(r.rx.start, |r.rx.items|, r.Cap())]]))
    case CommitRead =>
      r.(word := CommitRp(r.word, r.Cap(), |r.rx.items|), rx := Idle, got := r.got + r.rx.items)
    case CloseTx => r.(word := r.word.(txClosed := true))
    case CloseRx => r.(word := r.word.(rxClosed := true))
    case SetStandby(tx, on) =>
      r.(word := if tx then r.word.(txStandby := on) else r.word.(rxStandby := on))
  }

  // -------------------------------------------------------------------------
  // Invariant
  // -------------------------------------------------------------------------

  ghost predicate WriterOk<T>(r: Ring<T>)
    requires r.Shape()
  {
    r.tx.Lent? ==>
      && r.tx.start == r.word.wp && |r.tx.items| <= r.tx.take <= r.Free() && r.Free() <= r.Cap()
      && forall i :: 0 <= i < |r.tx.items| ==> r.cells[Slot(r.word.wp, i, r.Cap())] == r.tx.items[i]
  }

  ghost predicate ReaderOk<T>(r: Ring<T>)
    requires r.Shape()
  {
    r.rx.Lent? ==>
      && r.rx.start == r.word.rp && |r.rx.items| <= r.rx.take <= r.Data() && r.Data() <= r.Cap()
      && forall i :: 0 <= i < |r.rx.items| ==> r.cells[Slot(r.word.rp, i, r.Cap())] == r.rx.items[i]
  }

  /** In every reachable state: the positions are meaningful, everything the writer
      committed is what the reader committed followed by the queue, and both live
      segments sit where the current word says although they were lent from an older
      one. */
  ghost predicate Inv<T>(r: Ring<T>) {
    && r.Shape() && r.Data() <= r.Cap() && WriterOk(r) && ReaderOk(r)
    && r.sent == r.got + r.Queue()
  }

  function Init<T>(cells: seq<T>): Ring<T> {
    Ring(cells, Fields(0, 0, 0, false, false, false, false, false), Idle, Idle, [], [])
  }

  lemma InitInv<T>(cells: seq<T>)
    requires MIN_CAPACITY <= |cells| <= MAX_CAPACITY
    ensures Inv(Init(cells)) && Init(cells).Queue() == []
  {
    DataSizeIs(Init(cells).Pos());
  }

  // -------------------------------------------------------------------------
  // One step
  // -------------------------------------------------------------------------

  /** The free cell `i` past the writer is cell `data + i` past the reader. */
  lemma SlotPastData(p: IoPos, i: nat)
    requires p.Valid() && i < p.FreeSize()
    ensures p.DataSize() + i < p.cap
    ensures Slot(p.wp, i, p.cap) == Slot(p.rp, p.DataSize() + i, p.cap)
  {
    DataSizeIs(p);
  }

  /** A store to a free cell leaves the queue and the other moved items alone. */
  lemma FreeStore<T>(r: Ring<T>, i: nat, item: T)
    requires Inv(r) && r.tx.Lent? && i < r.tx.take
    ensures var r' := r.(cells := r.cells[Slot(r.tx.start, i, r.Cap()) := item]);
      && r'.Queue() == r.Queue() && ReaderOk(r') && r'.Cap() == r.Cap()
      && forall j :: 0 <= j < r.Cap() && j != i ==>
           r'.cells[Slot(r.word.wp, j, r.Cap())] == r.cells[Slot(r.word.wp, j, r.Cap())]
  {
    DataSizeIs(r.Pos());
    SlotPastData(r.Pos(), i);
  }

  /** What a step may do. A write commit appends the items that were put, a read commit
      removes exactly the items that were taken, and no other step changes the queue or
      the logs. A close sets its flag, arming and disarming set their bit, and no other step
      changes a flag. */
  ghost predicate Refines<T>(r: Ring<T>, a: Action<T>, r': Ring<T>)
    requires Inv(r) && Enabled(r, a)
  {
    && Inv(r') && r'.Cap() == r.Cap() && |r'.Queue()| <= r.Cap()
    && (match a
        case CommitWrite => r'.Queue() == r.Queue() + r.tx.items && r'.got == r.got
        case CommitRead => r.Queue() == r.rx.items + r'.Queue() && r'.sent == r.sent
        case _ => r'.Queue() == r.Queue() && r'.sent == r.sent && r'.got == r.got)
    && r'.word.txClosed == (r.word.txClosed || a.CloseTx?) && r'.word.rxClosed == (r.word.rxClosed || a.CloseRx?)
    && r'.word.txStandby == (if a.SetStandby? && a.tx then a.on else r.word.txStandby)
    && r'.word.rxStandby == (if a.SetStandby? && !a.tx then a.on else r.word.rxStandby)
  }

  lemma CommitWriteStep<T>(r: Ring<T>)
    requires Inv(r) && r.tx.Lent?
    ensures Refines(r, CommitWrite, Step(r, CommitWrite))
    ensures Step(r, CommitWrite).Data() == r.Data() + |r.tx.items|
  {
    CommitWriteInv(r);
    var r' := Step(r, CommitWrite);
    assert r'.Shape() && r'.Data() <= r'.Cap() == r.Cap();
    hide Inv, CommitWp;
  }

  lemma CommitWriteInv<T>(r: Ring<T>)
    requires Inv(r) && r.tx.Lent?
    ensures var r' := Step(r, CommitWrite);
      && Inv(r') && r'.Queue() == r.Queue() + r.tx.items && r'.Data() == r.Data() + |r.tx.items|
  {
    var r', n := Step(r, CommitWrite), |r.tx.items|;
    AdvanceWpExact(r.Pos(), n);
    WriteWindow(r, r', n);
    assert r'.sent == r'.got + r'.Queue();
  }

  lemma WriteWindow<T>(r: Ring<T>, r': Ring<T>, n: nat)
    requires r.Shape() && r'.Shape() && r.Data() + n <= r.Cap() && n <= r.Free() && r'.Data() == r.Data() + n
    requires r'.cells == r.cells && r'.word.rp == r.word.rp
    ensures r'.Queue() == r.Queue() + Window(r.cells, r.word.wp, n)
  {
    forall i | 0 <= i < n
      ensures Slot(r.word.wp, i, r.Cap()) == Slot(r.word.rp, r.Data() + i, r.Cap())
    {
      SlotPastData(r.Pos(), i);
    }
  }

  lemma CommitReadStep<T>(r: Ring<T>)
    requires Inv(r) && r.rx.Lent?
    ensures Refines(r, CommitRead, Step(r, CommitRead))
    ensures Step(r, CommitRead).Data() + |r.rx.items| == r.Data()
  {
    CommitReadInv(r);
    var r' := Step(r, CommitRead);
    assert r'.Shape() && r'.Data() <= r'.Cap() == r.Cap();
    hide Inv, CommitRp;
  }

  lemma CommitReadInv<T>(r: Ring<T>)
    requires Inv(r) && r.rx.Lent?
    ensures var r' := Step(r, CommitRead);
      && Inv(r') && r.Queue() == r.rx.items + r'.Queue() && r'.Data() + |r.rx.items| == r.Data()
  {
    var r', n := Step(r, CommitRead), |r.rx.items|;
    AdvanceRpExact(r.Pos(), n);
    ReadWindow(r, r', n);
    assert r.sent == (r.got + r.rx.items) + r'.Queue();
  }

  lemma ReadWindow<T>(r: Ring<T>, r': Ring<T>, n: nat)
    requires r.Shape() && r'.Shape() && n <= r.Data() <= r.Cap() && r'.Data() == r.Data() - n
    requires r'.cells == r.cells && r'.word.rp == r.Pos().AdvanceRp(n).rp
    ensures r.Queue()[n..] == r'.Queue()
  {
    SlotAdvance(r.Pos(), n);
  }

  /** After the reader advanced by `n`, its cell `i` is the old cell `n + i`. */
  lemma SlotAdvance(p: IoPos, n: nat)
    requires p.Valid() && n <= p.DataSize() <= p.cap
    ensures forall i :: 0 <= i < p.DataSize() - n ==>
      Slot(p.AdvanceRp(n).rp, i, p.cap) == Slot(p.rp, n + i, p.cap)
  {
    Lap(p.rp + n, p.cap);
  }

  lemma PutStep<T>(r: Ring<T>, a: Action<T>)
    requires Inv(r) && Enabled(r, a) && (a.Put? || a.Scribble?)
    ensures Refines(r, a, Step(r, a))
  {
    FreeStore(r, if a.Put? then |r.tx.items| else a.i, a.item);
  }

  lemma LendStep<T>(r: Ring<T>, a: Action<T>)
    requires Inv(r) && Enabled(r, a) && (a.LendWrite? || a.LendRead? || a.Take?)
    ensures Refines(r, a, Step(r, a))
  {
    DataSizeIs(r.Pos());
    var r' := Step(r, a);
    assert r'.Queue() == r.Queue();
  }

  lemma FlagStep<T>(r: Ring<T>, a: Action<T>)
    requires Inv(r) && (a.CloseTx? || a.CloseRx? || a.SetStandby?)
    ensures Refines(r, a, Step(r, a))
  {
    var r' := Step(r, a);
    assert r'.Pos() == r.Pos() && r'.Queue() == r.Queue();
  }

  /** Every step keeps the invariant and refines a bounded first-in first-out queue. */
  lemma StepRefines<T>(r: Ring<T>, a: Action<T>)
    requires Inv(r) && Enabled(r, a)
    ensures Refines(r, a, Step(r, a))
  {
    match a
    case Put(_) => PutStep(r, a);
    case Scribble(_, _) => PutStep(r, a);
    case CommitWrite => CommitWriteStep(r);
    case CommitRead => CommitReadStep(r);
    case LendWrite(_, _) => LendStep(r, a);
    case LendRead(_, _) => LendStep(r, a);
    case Take => LendStep(r, a);
    case _ => FlagStep(r, a);
  }

  // -------------------------------------------------------------------------
  // Whole runs
  // -------------------------------------------------------------------------

  /** `acts` is an interleaving that the two ends can perform from `r`. */
  ghost predicate Runs<T>(r: Ring<T>, acts: seq<Action<T>>)
    requires Inv(r)
    decreases |acts|
  {
    acts == [] ||
    (Enabled(r, acts[0]) && (StepRefines(r, acts[0]); Runs(Step(r, acts[0]), acts[1..])))
  }

  ghost function Run<T>(r: Ring<T>, acts: seq<Action<T>>): (r': Ring<T>)
    requires Inv(r) && Runs(r, acts)
    ensures Inv(r')
    decreases |acts|
  {
    if acts == [] then r else
      StepRefines(r, acts[0]);
      Run(Step(r, acts[0]), acts[1..])
  }

  /** The items of all write commits of a run, and of all read commits. */
  ghost function Committed<T>(r: Ring<T>, acts: seq<Action<T>>, write: bool): seq<T>
    requires Inv(r) && Runs(r, acts)
    decreases |acts|
  {
    if acts == [] then [] else
      StepRefines(r, acts[0]);
      Share(r, acts[0], write) + Committed(Step(r, acts[0]), acts[1..], write)
  }

  /** What one step commits. */
  ghost function Share<T>(r: Ring<T>, a: Action<T>, write: bool): seq<T>
    requires Inv(r) && Enabled(r, a)
  {
    if write && a.CommitWrite? then r.tx.items else if !write && a.CommitRead? then r.rx.items else []
  }

  lemma LogStep<T>(r: Ring<T>, a: Action<T>)
    requires Inv(r) && Enabled(r, a)
    ensures var r' := Step(r, a);
      r'.sent == r.sent + Share(r, a, true) && r'.got == r.got + Share(r, a, false)
  {
    hide Inv;
  }

  /** Conservation over every run from an empty ring: what the writer committed is what
      the reader committed followed by the queue, in order, and the queue never holds
      more than the capacity. */
  lemma RingIsBoundedFifo<T>(cells: seq<T>, acts: seq<Action<T>>)
    requires MIN_CAPACITY <= |cells| <= MAX_CAPACITY
    requires (InitInv(cells); Runs(Init(cells), acts))
    ensures (InitInv(cells); var r' := Run(Init(cells), acts);
      && Committed(Init(cells), acts, true) == Committed(Init(cells), acts, false) + r'.Queue()
      && |r'.Queue()| <= |cells|)
  {
    InitInv(cells);
    var r := Init(cells);
    LogsAreCommits(r, acts);
    assert [] + Committed(r, acts, true) == Committed(r, acts, true);
    assert [] + Committed(r, acts, false) == Committed(r, acts, false);
  }

  lemma {:induction false} LogsAreCommits<T>(r: Ring<T>, acts: seq<Action<T>>)
    requires Inv(r) && Runs(r, acts)
    ensures Run(r, acts).sent == r.sent + Committed(r, acts, true)
    ensures Run(r, acts).got == r.got + Committed(r, acts, false)
    ensures Run(r, acts).Cap() == r.Cap()
    decreases |acts|
  {
    hide Inv, Step, Refines, Share, Enabled, Runs, Run, Committed;
    if acts == [] {
      RunNothing(r);
    } else {
      RunUnfolds(r, acts);
      LogStep(r, acts[0]);
      LogsAreCommits(Step(r, acts[0]), acts[1..]);
    }
  }

  lemma RunNothing<T>(r: Ring<T>)
    requires Inv(r)
    ensures Runs(r, []) && Run(r, []) == r && forall write :: Committed(r, [], write) == []
  {
    hide Inv;
  }

  lemma RunUnfolds<T>(r: Ring<T>, acts: seq<Action<T>>)
    requires Inv(r) && Runs(r, acts) && acts != []
    ensures Enabled(r, acts[0])
    ensures var r1 := Step(r, acts[0]);
      && Inv(r1) && r1.Cap() == r.Cap() && Runs(r1, acts[1..]) && Run(r, acts) == Run(r1, acts[1..])
      && forall write :: Committed(r, acts, write) == Share(r, acts[0], write) + Committed(r1, acts[1..], write)
  {
    StepRefines(r, acts[0]);
    var r1 := Step(r, acts[0]);
    assert Inv(r1) && r1.Cap() == r.Cap();
    hide Inv, Step, Refines, Share;
  }

  // -------------------------------------------------------------------------
  // Two live segments
  // -------------------------------------------------------------------------

  /** The two live regions never share a cell, and each commit meets its precondition on
      the word as it is at the commit, however old the load was that lent the region. */
  lemma LiveRegionsAreDisjoint<T>(r: Ring<T>, i: nat, j: nat)
    requires Inv(r) && r.tx.Lent? && r.rx.Lent? && i < r.tx.take && j < r.rx.take
    ensures Slot(r.tx.start, i, r.Cap()) != Slot(r.rx.start, j, r.Cap())
    ensures |r.tx.items| <= r.Pos().FreeSize() && |r.rx.items| <= r.Pos().DataSize()
  {
    SlotPastData(r.Pos(), i);
  }

  // -------------------------------------------------------------------------
  // Closing
  // -------------------------------------------------------------------------

  /** When the reader is told `Closing`, an end is closed and every item committed so
      far has been committed as read; and whenever both hold it is told so. */
  lemma ClosingMeansAllRead<T>(r: Ring<T>, min: nat, max: nat)
    requires Inv(r)
    ensures TryReadAt(r.word, r.Cap(), min, max) == Err(Closing) <==>
      r.got == r.sent && (r.word.txClosed || r.word.rxClosed)
  {
    DataSizeIs(r.Pos());
  }

  /** The producer starts nothing new: no write segment is lent or committed. */
  ghost predicate ProducerQuiet<T>(acts: seq<Action<T>>) {
    forall k :: 0 <= k < |acts| ==> !acts[k].LendWrite? && !acts[k].CommitWrite?
  }

  /** For a producer that stops writing once it has closed, `Closing` is final: nothing
      is ever committed after it, so what the reader has is everything. */
  lemma {:induction false} EofIsFinal<T>(r: Ring<T>, acts: seq<Action<T>>)
    requires Inv(r) && Runs(r, acts) && r.word.txClosed && ProducerQuiet(acts)
    ensures var r' := Run(r, acts);
      && r'.sent == r.sent && r'.word.txClosed
      && (forall min, max :: TryReadAt(r'.word, r'.Cap(), min, max) == Err(Closing) ==> r'.got == r.sent)
      && (r.got == r.sent ==> r'.got == r.sent)
    decreases |acts|
  {
    if acts == [] {
      forall min, max { ClosingMeansAllRead(r, min, max); }
    } else {
      StepRefines(r, acts[0]);
      EofIsFinal(Step(r, acts[0]), acts[1..]);
    }
  }

  /** Lending to the writer looks at the space alone, which is what the items not yet
      read leave of the buffer; a closed flag decides nothing but the error. As much is
      lent as there is space for, up to the demand's maximum. */
  lemma WriteLentExactly<T>(r: Ring<T>, min: nat, max: nat)
    requires Inv(r)
    ensures var space := r.Cap() - (|r.sent| - |r.got|);
      match TryWriteAt(r.word, r.Cap(), min, max)
      case Ok((start, take)) =>
        && space >= Max1(min) && start == r.word.wp && take <= space && take <= max
        && (take == space || take == max) && (min <= max ==> take >= min)
      case Err(e) => space < Max1(min) && e == if r.word.txClosed then Closing else Stuffed(r.word.wp)
  {
    DataSizeIs(r.Pos());
  }

  /** Lending to the reader: as much as there is, up to the demand's maximum; below its
      minimum only when an end is closed, and never nothing. */
  lemma ReadLentExactly<T>(r: Ring<T>, min: nat, max: nat)
    requires Inv(r)
    ensures var ready, closed := |r.sent| - |r.got|, r.word.txClosed || r.word.rxClosed;
      match TryReadAt(r.word, r.Cap(), min, max)
      case Ok((start, take)) =>
        && ready >= (if closed then 1 else Max1(min)) && start == r.word.rp && take <= ready && take <= max
        && (take == ready || take == max) && (min <= max && ready >= min ==> take >= min)
      case Err(e) =>
        && ready < (if closed then 1 else Max1(min)) && e == if closed then Closing else Drained(r.word.rp)
  {
    DataSizeIs(r.Pos());
  }

  function Max1(n: nat): nat { if n == 0 then 1 else n }

  /** So a producer that goes on after closing is not stopped: whenever the reader has
      just been told `Closing`, it can still lend, and the item it commits is there for
      a reader that asks again. */
  lemma WriteAfterCloseIsSeen<T>(r: Ring<T>, item: T)
    requires Inv(r) && r.tx.Idle? && r.word.txClosed && r.got == r.sent
    ensures TryReadAt(r.word, r.Cap(), 1, 1) == Err(Closing)
    ensures var acts := [LendWrite(1, 1), Put(item), CommitWrite];
      Runs(r, acts) && Run(r, acts).Queue() == [item]
  {
    ClosingMeansAllRead(r, 1, 1);
    var a1, a2 := LendWrite(1, 1), Put(item);
    StepRefines(r, a1);
    var r1 := Step(r, a1);
    StepRefines(r1, a2);
    var r2 := Step(r1, a2);
    StepRefines(r2, CommitWrite);
    RunsCons(r2, CommitWrite, []);
    RunsCons(r1, a2, [CommitWrite]);
    RunsCons(r, a1, [a2, CommitWrite]);
    assert [a1] + ([a2] + ([CommitWrite] + [])) == [a1, a2, CommitWrite];
  }

  lemma RunsCons<T>(r: Ring<T>, a: Action<T>, rest: seq<Action<T>>)
    requires Inv(r) && Enabled(r, a) && (StepRefines(r, a); Runs(Step(r, a), rest))
    ensures Runs(r, [a] + rest) && Run(r, [a] + rest) == Run(Step(r, a), rest)
  {
    assert ([a] + rest)[1..] == rest;
  }

  // -------------------------------------------------------------------------
  // A segment delivers
  // -------------------------------------------------------------------------

  function Puts<T>(items: seq<T>): seq<Action<T>> { seq(|items|, i requires 0 <= i < |items| => Put(items[i])) }

  function Takes<T>(n: nat): seq<Action<T>> { seq(n, _ => Take) }

  lemma {:induction false} PutsThenCommit<T>(r: Ring<T>, items: seq<T>)
    requires Inv(r) && r.tx.Lent? && |r.tx.items| + |items| <= r.tx.take
    ensures Runs(r, Puts(items) + [CommitWrite])
    ensures var r' := Run(r, Puts(items) + [CommitWrite]);
      r'.Queue() == r.Queue() + r.tx.items + items && r'.got == r.got && r'.tx.Idle?
    decreases |items|
  {
    if items == [] {
      CommitWriteStep(r);
      RunsCons(r, CommitWrite, []);
      assert Puts(items) + [CommitWrite] == [CommitWrite] + [];
    } else {
      var a, rest := Put(items[0]), items[1..];
      StepRefines(r, a);
      var r1 := Step(r, a);
      PutsThenCommit(r1, rest);
      hide Inv, Refines, Runs, Run;
      RunsCons(r, a, Puts(rest) + [CommitWrite]);
      assert Puts(items) + [CommitWrite] == [a] + (Puts(rest) + [CommitWrite]);
      assert r1.tx.items + rest == r.tx.items + items;
    }
  }

  lemma {:induction false} TakesThenCommit<T>(r: Ring<T>, n: nat)
    requires Inv(r) && r.rx.Lent? && |r.rx.items| + n <= r.rx.take
    ensures |r.rx.items| + n <= |r.Queue()| && Runs(r, Takes(n) + [CommitRead])
    ensures var r', k := Run(r, Takes(n) + [CommitRead]), |r.rx.items| + n;
      r'.got == r.got + r.Queue()[..k] && r'.Queue() == r.Queue()[k..] && r'.sent == r.sent && r'.rx.Idle?
    decreases n
  {
    if n == 0 {
      CommitReadStep(r);
      LogStep(r, CommitRead);
      RunsCons(r, CommitRead, []);
      assert Takes<T>(n) + [CommitRead] == [CommitRead] + [];
    } else {
      StepRefines(r, Take);
      var r1 := Step(r, Take);
      TakesThenCommit(r1, n - 1);
      hide Inv, Refines, Runs, Run;
      RunsCons(r, Take, Takes(n - 1) + [CommitRead]);
      assert Takes<T>(n) + [CommitRead] == [Take] + (Takes<T>(n - 1) + [CommitRead]);
    }
  }

  lemma WriteLends<T>(r: Ring<T>, min: nat, max: nat)
    requires Inv(r) && r.tx.Idle? && Max1(min) <= r.Cap() - |r.Queue()|
    ensures var r' := Step(r, LendWrite(min, max));
      && Inv(r') && r'.tx.Lent? && r'.tx.items == [] && r'.tx.take == Min(max, r.Cap() - |r.Queue()|)
      && r'.Queue() == r.Queue() && r'.got == r.got && r'.Cap() == r.Cap()
  {
    WriteLentExactly(r, min, max);
    StepRefines(r, LendWrite(min, max));
    assert |r.sent| == |r.got| + |r.Queue()|;
    hide Inv, TryWriteAt;
  }

  lemma ReadLends<T>(r: Ring<T>, min: nat, max: nat)
    requires Inv(r) && r.rx.Idle? && Max1(min) <= |r.Queue()|
    ensures var r' := Step(r, LendRead(min, max));
      && Inv(r') && r'.rx.Lent? && r'.rx.items == [] && r'.rx.take == Min(max, |r.Queue()|)
      && r'.Queue() == r.Queue() && r'.got == r.got && r'.Cap() == r.Cap()
  {
    ReadLentExactly(r, min, max);
    StepRefines(r, LendRead(min, max));
    assert |r.sent| == |r.got| + |r.Queue()|;
    hide Inv, TryReadAt;
  }

  /** From any reachable state with room enough: what a producer lends, puts and commits
      is at the end of the queue, all of it, in order. */
  lemma WriteDelivers<T>(r: Ring<T>, min: nat, max: nat, items: seq<T>)
    requires Inv(r) && r.tx.Idle? && |items| <= max
    requires Max1(min) <= r.Cap() - |r.Queue()| && |items| <= r.Cap() - |r.Queue()|
    ensures var acts := [LendWrite(min, max)] + (Puts(items) + [CommitWrite]);
      Runs(r, acts) && Run(r, acts).Queue() == r.Queue() + items
  {
    var a := LendWrite(min, max);
    WriteLends(r, min, max);
    hide Inv, Step, Runs, Run;
    PutsThenCommit(Step(r, a), items);
    RunsCons(r, a, Puts(items) + [CommitWrite]);
  }

  /** And what a consumer lends, takes and commits is what the queue began with. */
  lemma ReadDelivers<T>(r: Ring<T>, min: nat, max: nat, n: nat)
    requires Inv(r) && r.rx.Idle? && n <= max && Max1(min) <= |r.Queue()| && n <= |r.Queue()|
    ensures var acts := [LendRead(min, max)] + (Takes(n) + [CommitRead]);
      && Runs(r, acts) && Run(r, acts).Queue() == r.Queue()[n..]
      && Run(r, acts).got == r.got + r.Queue()[..n]
  {
    var a := LendRead(min, max);
    ReadLends(r, min, max);
    hide Inv, Step, Runs, Run;
    TakesThenCommit(Step(r, a), n);
    RunsCons(r, a, Takes(n) + [CommitRead]);
  }
}
