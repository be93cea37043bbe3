/** The ring core as the program holds it: a packed state word, the buffer, and at
    either end a passive user or a device. Commits drive the pump of an active peer;
    pumps commit in turn. */
module CircCore {
  import opened Common
  import opened RingWord
  import opened Ring
  import opened Segments

  /** One poll of a device: some items and perhaps an error as well, or not ready. */
  datatype DevResult = Done(n: nat) | DoneErr(n: nat) | Failed | Pending {
    function Moved(): nat { if Done? || DoneErr? then n else 0 }
  }

  datatype React = Reacted | Continue | Suspended

  /** An input device: a fixed stream handed out in chunks of any size. It has stopped
      when its last poll did not just deliver. */
  class InputDevice<T> {
    const stream: seq<T>
    var pos: nat
    ghost var stopped: bool
    ghost var asked: nat      // by the last poll

    constructor (stream: seq<T>)
      ensures Valid() && this.stream == stream && pos == 0
    {
      this.stream, pos := stream, 0;
    }

    ghost predicate Valid()
      reads this
    {
      pos <= |stream|
    }

    method Read(cells: array<T>, from: nat, take: nat) returns (r: DevResult)
      requires Valid() && from + take <= cells.Length
      modifies this, cells
      ensures Valid() && r.Moved() <= take && pos == old(pos) + r.Moved()
      ensures stopped == !(r.Done? && r.n > 0) && asked == take
      ensures cells[..] == Blit(old(cells[..]), from, stream[old(pos)..pos])
    {
      r := Pending;
      var n: nat := 0;
      if * {
        n :| 0 <= n <= take && n <= |stream| - pos;
        if * { r := Done(n); } else { r := DoneErr(n); }
      } else if * {
        r := Failed;
      }
      forall k | 0 <= k < n {
        cells[from + k] := stream[pos + k];
      }
      pos, stopped, asked := pos + n, !(r.Done? && n > 0), take;
    }
  }

  /** An output device: takes any part of what it is offered. */
  class OutputDevice<T> {
    var accepted: seq<T>
    ghost var stopped: bool
    ghost var asked: nat      // by the last poll

    constructor ()
      ensures accepted == []
    {
      accepted := [];
    }

    method Write(cells: array<T>, from: nat, take: nat) returns (r: DevResult)
      requires from + take <= cells.Length
      modifies this
      ensures r.Moved() <= take && accepted == old(accepted) + cells[from..from + r.Moved()]
      ensures stopped == !(r.Done? && r.n > 0) && asked == take
    {
      r := Pending;
      if * {
        var n: nat :| 0 <= n <= take;
        accepted := accepted + cells[from..from + n];
        if * { r := Done(n); } else { r := DoneErr(n); }
      } else if * {
        r := Failed;
      }
      stopped, asked := !(r.Done? && r.n > 0), take;
    }
  }

  /** `move_items_from_input_async` on the current piece of a segment: reads until the
      piece is full or the device stops, fails or is not ready. */
  method FillPiece<T>(segm: Segm<T>, input: InputDevice<T>) returns (c: nat, last: DevResult)
    requires segm.Valid() && segm.LeastCount() > 0 && input.Valid()
    modifies segm`offset, segm.cells, input
    ensures segm.Valid() && input.Valid() && segm.offset == old(segm.offset) + c
    ensures input.pos == old(input.pos) + c
    ensures segm.Items() == Blit(old(segm.Items()), old(segm.offset), input.stream[old(input.pos)..input.pos])
    ensures forall j :: 0 <= j < segm.cells.Length && !segm.pieces.Covers(j) ==> segm.cells[j] == old(segm.cells[j])
    ensures c == 0 || last.Pending? || last.Failed? || last.DoneErr? ==> input.stopped
  {
    hide Blit, Gather;
    var (from, len) := segm.pieces.Current(segm.offset);
    CurrentIsARun(segm.pieces, segm.offset);
    ghost var s0, p0, items := segm.offset, input.pos, segm.Items();
    BlitNothing(items, s0);
    assert input.stream[p0..p0] == [];
    c, last := 0, Done(len);
    while c < len
      invariant c <= len && segm.offset == s0 && input.Valid() && input.pos == p0 + c
      invariant segm.Items() == Blit(items, s0, input.stream[p0..p0 + c])
      invariant forall j :: 0 <= j < segm.cells.Length && !segm.pieces.Covers(j) ==> segm.cells[j] == old(segm.cells[j])
      invariant c > 0 ==> last.Done?
      decreases len - c
    {
      AfterRun(segm.pieces, s0, c);
      ghost var before, was := segm.cells[..], input.pos;
      last := input.Read(segm.cells, from + c, len - c);
      var n := last.Moved();
      GatherBlit(before, segm.pieces, s0 + c, input.stream[was..was + n]);
      BlitTwice(items, s0, input.stream[p0..p0 + c], input.stream[was..was + n]);
      assert input.stream[p0..p0 + c] + input.stream[was..was + n] == input.stream[p0..p0 + c + n];
      c := c + n;
      if !last.Done? || n == 0 { break; }
    }
    segm.offset := segm.offset + c;
  }

  /** Further into the same piece the current piece is what is left of it. */
  lemma AfterRun(p: Pieces, offset: nat, c: nat)
    requires offset <= p.Len() && c < p.Current(offset).1
    ensures offset + c <= p.Len()
    ensures p.Current(offset + c) == (p.Current(offset).0 + c, p.Current(offset).1 - c)
  {}

  /** `react_async` of an input device: fills the write segment piece by piece. */
  method ReactInput<T>(segm: Segm<T>, input: InputDevice<T>) returns (r: React)
    requires segm.Valid() && input.Valid()
    modifies segm`offset, segm.cells, input
    ensures segm.Valid() && input.Valid() && segm.offset >= old(segm.offset)
    ensures input.pos - old(input.pos) == segm.offset - old(segm.offset)
    ensures segm.LeastCount() == 0 || input.stopped
    ensures r.Reacted? || segm.offset == old(segm.offset) || input.stopped
    ensures segm.Items() == Blit(old(segm.Items()), old(segm.offset), input.stream[old(input.pos)..input.pos])
    ensures forall j :: 0 <= j < segm.cells.Length && !segm.pieces.Covers(j) ==> segm.cells[j] == old(segm.cells[j])
  {
    hide Blit, Gather;
    var moved := 0;
    ghost var s0, p0, items := segm.offset, input.pos, segm.Items();
    BlitNothing(items, s0);
    assert input.stream[p0..p0] == [];
    while segm.LeastCount() > 0
      invariant segm.Valid() && input.Valid() && segm.offset >= s0
      invariant input.pos - p0 == segm.offset - s0 == moved
      invariant segm.Items() == Blit(items, s0, input.stream[p0..input.pos])
      invariant forall j :: 0 <= j < segm.cells.Length && !segm.pieces.Covers(j) ==> segm.cells[j] == old(segm.cells[j])
      decreases segm.LeastCount()
    {
      ghost var was := input.pos;
      var c, last := FillPiece(segm, input);
      BlitTwice(items, s0, input.stream[p0..was], input.stream[was..input.pos]);
      assert input.stream[p0..was] + input.stream[was..input.pos] == input.stream[p0..input.pos];
      if last.Pending? { return Suspended; }
      if (last.DoneErr? && last.n != 0) || last.Failed? { break; }
      if c == 0 { break; }
      moved := moved + c;
    }
    r := if moved > 0 then Reacted else Continue;
  }

  /** From `before` to `after` a region got `given` from its start, and no other cell
      changed. */
  ghost predicate Filled<T>(before: seq<T>, after: seq<T>, p: Pieces, given: seq<T>) {
    && |after| == |before| && p.Within(|before|) && |given| <= p.Len()
    && Gather(after, p) == Blit(Gather(before, p), 0, given)
    && forall j :: 0 <= j < |after| && !p.Covers(j) ==> after[j] == before[j]
  }

  /** A write segment over a whole region, reacted to once and dropped. */
  method FillRegion<T>(cells: array<T>, p: Pieces, input: InputDevice<T>) returns (moved: nat, outcome: React)
    requires p.Within(cells.Length) && input.Valid()
    modifies cells, input
    ensures input.Valid() && moved <= p.Len() && input.pos == old(input.pos) + moved
    ensures (moved == p.Len() && (outcome.Reacted? || moved == 0)) || input.stopped
    ensures Filled(old(cells[..]), cells[..], p, input.stream[old(input.pos)..input.pos])
  {
    hide Gather, Blit;
    var segm := new Segm(cells, p);
    outcome := ReactInput(segm, input);
    moved := segm.offset;
  }

  /** `move_items_to_output_async` on the current piece of a segment. */
  method DrainPiece<T>(segm: Segm<T>, output: OutputDevice<T>) returns (c: nat, last: DevResult)
    requires segm.Valid() && segm.LeastCount() > 0
    modifies segm`offset, output
    ensures segm.Valid() && segm.offset == old(segm.offset) + c
    ensures c == 0 || last.Pending? || last.Failed? || last.DoneErr? ==> output.stopped
    ensures output.accepted == old(output.accepted) + segm.Items()[old(segm.offset)..segm.offset]
  {
    hide Gather;
    var (from, len) := segm.pieces.Current(segm.offset);
    CurrentIsARun(segm.pieces, segm.offset);
    RunOfItems(segm.cells[..], segm.pieces, segm.offset, len);
    c, last := DrainSlice(segm.cells, from, len, output);
    assert segm.cells[from..from + c] == segm.cells[..][from..from + len][..c];
    segm.offset := segm.offset + c;
  }

  method DrainSlice<T>(cells: array<T>, from: nat, len: nat, output: OutputDevice<T>) returns (c: nat, last: DevResult)
    requires from + len <= cells.Length
    modifies output
    ensures c <= len && output.accepted == old(output.accepted) + cells[from..from + c]
    ensures (c == 0 && len > 0) || last.Pending? || last.Failed? || last.DoneErr? ==> output.stopped
  {
    c, last := 0, Done(len);
    while c < len
      invariant c <= len && output.accepted == old(output.accepted) + cells[from..from + c]
      invariant last.Done?
      decreases len - c
    {
      last := output.Write(cells, from + c, len - c);
      var n := last.Moved();
      assert cells[from..from + c] + cells[from + c..from + c + n] == cells[from..from + c + n];
      c := c + n;
      if !last.Done? || n == 0 { break; }
    }
  }

  /** `react_async` of an output device: drains the read segment piece by piece. */
  method ReactOutput<T>(segm: Segm<T>, output: OutputDevice<T>) returns (r: React)
    requires segm.Valid()
    modifies segm`offset, output
    ensures segm.Valid() && segm.offset >= old(segm.offset)
    ensures segm.LeastCount() == 0 || output.stopped
    ensures r.Reacted? || segm.offset == old(segm.offset) || output.stopped
    ensures output.accepted == old(output.accepted) + segm.Items()[old(segm.offset)..segm.offset]
  {
    var moved := 0;
    ghost var s0, out, items := segm.offset, output.accepted, segm.Items();
    while segm.LeastCount() > 0
      invariant segm.Valid() && segm.offset == s0 + moved && segm.Items() == items
      invariant output.accepted == out + items[s0..segm.offset]
      decreases segm.LeastCount()
    {
      ghost var was := segm.offset;
      var c, last := DrainPiece(segm, output);
      assert items[s0..was] + items[was..segm.offset] == items[s0..segm.offset];
      if last.Pending? { return Suspended; }
      if (last.DoneErr? && last.n != 0) || last.Failed? { break; }
      if c == 0 { break; }
      moved := moved + c;
    }
    r := if moved > 0 then Reacted else Continue;
  }

  lemma FreshWord<T>(cells: seq<T>, w: Word)
    requires w == 0 && MIN_CAPACITY <= |cells| <= MAX_CAPACITY
    ensures var r := Ring(cells, Decode(w), Idle, Idle, [], []); Inv(r) && r.Queue() == []
  {
    hide Inv, Decode;
    InitInv(cells);
    DecodeZero();
  }

  /** A segment that drops after `n` items is one commit of the ring machine. */
  lemma WriteCommits<T>(r: Ring<T>, n: nat)
    requires Inv(r) && r.tx.Idle? && n <= r.Free()
    ensures r.Free() <= r.Cap() && r.word.wp < r.Cap()
    ensures var items := Window(r.cells, r.word.wp, n);
      var r' := r.(word := CommitWp(r.word, r.Cap(), n), sent := r.sent + items);
      Inv(r') && r'.Queue() == r.Queue() + items && r'.Data() == r.Data() + n
  {
    var items := Window(r.cells, r.word.wp, n);
    var lent := r.(tx := Lent(r.word.wp, n, items));
    assert Inv(lent) && lent.Queue() == r.Queue();
    hide Inv, Window;
    CommitWriteStep(lent);
  }

  lemma ReadCommits<T>(r: Ring<T>, n: nat)
    requires Inv(r) && r.rx.Idle? && n <= r.Data()
    ensures r.Data() == |r.Queue()|
    ensures var r' := r.(word := CommitRp(r.word, r.Cap(), n), got := r.got + r.Queue()[..n]);
      Inv(r') && r'.Queue() == r.Queue()[n..] && r'.Data() + n == r.Data()
  {
    var lent := r.(rx := Lent(r.word.rp, n, r.Queue()[..n]));
    assert Inv(lent) && lent.Queue() == r.Queue();
    hide Inv, Window;
    CommitReadStep(lent);
  }

  /** What is held is what was written and not yet read. */
  lemma HeldIs<T>(r: Ring<T>)
    requires Inv(r)
    ensures |r.sent| == |r.got| + r.Data() && r.Data() + r.Free() == r.Cap()
  {}

  /** A device that fills a lent region from its start leaves the queue alone, and the
      cells past the writer hold just what it gave. */
  lemma FillKeeps<T>(r: Ring<T>, after: seq<T>, take: nat, given: seq<T>)
    requires Inv(r) && r.tx.Idle? && r.rx.Idle? && |given| <= take <= r.Free() && take <= r.Cap() == |after|
    requires Filled(r.cells, after, Cut(r.word.wp, take, r.Cap()), given)
    ensures var r' := r.(cells := after);
      Inv(r') && r'.Queue() == r.Queue() && Window(after, r.word.wp, |given|) == given
  {
    var p := Cut(r.word.wp, take, r.Cap());
    DataSizeIs(r.Pos());
    forall i | 0 <= i < r.Data()
      ensures after[Slot(r.word.rp, i, r.Cap())] == r.cells[Slot(r.word.rp, i, r.Cap())]
    {
      assert !p.Covers(Slot(r.word.rp, i, r.Cap()));
    }
    forall i | 0 <= i < |given|
      ensures after[Slot(r.word.wp, i, r.Cap())] == given[i]
    {
      assert Gather(after, p)[i] == given[i];
    }
    assert r.(cells := after).Queue() == r.Queue();
  }

  /** A write segment lent to the device: the queue is untouched, and what the device
      gave lies past the writer. */
  method LendToInput<T>(cells: array<T>, start: nat, take: nat, input: InputDevice<T>, ghost r: Ring<T>)
    returns (moved: nat, outcome: React)
    requires Inv(r) && r.tx.Idle? && r.rx.Idle? && r.cells == cells[..] && input.Valid()
    requires start == r.word.wp < cells.Length && 0 < take <= r.Free() && take <= cells.Length
    modifies cells, input
    ensures Inv(r.(cells := cells[..])) && input.Valid() && moved <= take
    ensures input.pos == old(input.pos) + moved
    ensures (moved > 0 && outcome.Reacted?) || input.stopped
    ensures input.stream[..old(input.pos)] + Window(cells[..], start, moved) == input.stream[..input.pos]
  {
    hide Inv, Window, Filled;
    moved, outcome := FillRegion(cells, Cut(start, take, cells.Length), input);
    FillKeeps(r, cells[..], take, input.stream[old(input.pos)..input.pos]);
  }

  /** A read segment lent to the device: it takes a prefix of the queue. */
  method LendToOutput<T>(cells: array<T>, start: nat, take: nat, output: OutputDevice<T>, ghost r: Ring<T>)
    returns (moved: nat, outcome: React)
    requires Inv(r) && r.rx.Idle? && r.cells == cells[..]
    requires start == r.word.rp < cells.Length && 0 < take == r.Data() <= cells.Length
    modifies output
    ensures moved <= take == |r.Queue()| && output.accepted == old(output.accepted) + r.Queue()[..moved]
    ensures (moved > 0 && outcome.Reacted?) || output.stopped
  {
    QueueIsRegion(r);
    hide Inv, Window;
    var segm := new Segm(cells, Cut(start, take, cells.Length));
    outcome := ReactOutput(segm, output);
    moved := segm.offset;
  }

  lemma QueueIsRegion<T>(r: Ring<T>)
    requires Inv(r)
    ensures r.word.rp < r.Cap() && r.Data() <= r.Cap()
    ensures Gather(r.cells, Cut(r.word.rp, r.Data(), r.Cap())) == r.Queue()
  {}

  /** A write segment filled from a user's segment. */
  method LendToWriter<T>(cells: array<T>, start: nat, take: nat, src: Segm<T>, ghost r: Ring<T>) returns (moved: nat)
    requires Inv(r) && r.tx.Idle? && r.rx.Idle? && r.cells == cells[..] && src.Valid() && src.cells != cells
    requires start == r.word.wp < cells.Length && take <= r.Free() && take <= cells.Length
    modifies cells, src`offset
    ensures Inv(r.(cells := cells[..])) && src.Valid() && src.offset == old(src.offset) + moved
    ensures moved == Min(old(src.LeastCount()), take)
    ensures Window(cells[..], start, moved) == src.Items()[old(src.offset)..src.offset]
  {
    hide Inv, Window, Gather, Blit;
    var segm := new Segm(cells, Cut(start, take, cells.Length));
    moved := MoveItems(src, segm);
    ghost var given := src.Items()[old(src.offset)..src.offset];
    assert Filled(r.cells, cells[..], segm.pieces, given);
    hide Filled;
    FillKeeps(r, cells[..], take, given);
  }

  /** A read segment emptied into a user's segment. */
  method LendToReader<T>(cells: array<T>, start: nat, take: nat, dst: Segm<T>, ghost r: Ring<T>) returns (moved: nat)
    requires Inv(r) && r.cells == cells[..] && dst.Valid() && dst.cells != cells
    requires start == r.word.rp < cells.Length && take <= r.Data() <= cells.Length
    modifies dst`offset, dst.cells
    ensures dst.Valid() && dst.offset == old(dst.offset) + moved
    ensures moved == Min(take, old(dst.LeastCount())) && moved <= |r.Queue()|
    ensures dst.Items() == Blit(old(dst.Items()), old(dst.offset), r.Queue()[..moved])
  {
    RegionOfQueue(r, take);
    hide Inv, Window, Gather, Blit;
    var segm := new Segm(cells, Cut(start, take, cells.Length));
    ghost var items := segm.Items();
    moved := MoveItems(segm, dst);
    FrontOfFront(r.Queue(), take, moved);
  }

  lemma FrontOfFront<T>(q: seq<T>, n: nat, m: nat)
    requires m <= n <= |q|
    ensures q[..n][0..m] == q[..m]
  {}

  lemma RegionOfQueue<T>(r: Ring<T>, take: nat)
    requires Inv(r) && take <= r.Data()
    ensures r.word.rp < r.Cap() && r.Data() <= r.Cap() && take <= |r.Queue()|
    ensures Gather(r.cells, Cut(r.word.rp, take, r.Cap())) == r.Queue()[..take]
  {}

  class CircCore<T> {
    const cells: array<T>
    const txPassive: bool
    const rxPassive: bool
    const input: InputDevice<T>      // drives the write end when it is active
    const output: OutputDevice<T>    // drives the read end when it is active
    var word: Word
    ghost var written: seq<T>
    ghost var read: seq<T>

    /** The state of the ring machine this core is in, between two segments. */
    ghost function Abs(): Ring<T>
      reads this, cells
    {
      Ring(cells[..], Decode(word), Idle, Idle, written, read)
    }

    /** Conservation, within the ring and across the devices: an active writer has
        written just what its device gave, an active reader has read just what its
        device took. */
    ghost predicate Valid()
      reads this, cells, input, output
    {
      && Inv(Abs()) && input.Valid()
      && (!txPassive ==> written == input.stream[..input.pos])
      && (!rxPassive ==> output.accepted == read)
    }

    ghost function Contents(): seq<T>
      requires Inv(Abs())
      reads this, cells
    {
      Abs().Queue()
    }

    /** What the invariant says of the bytes. Behind an active writer the user has read
        exactly the front of what the device gave, in order, and the rest of it is in the
        ring; before an active reader the device has taken exactly the front of what the
        user committed; between two devices, what one gave is what the other took and
        the ring's contents. */
    lemma Conservation()
      requires Valid()
      ensures written == read + Contents() && |Contents()| <= cells.Length
      ensures !txPassive ==> input.stream[..input.pos] == read + Contents() && read <= input.stream
      ensures !rxPassive ==> written == output.accepted + Contents()
      ensures !txPassive && !rxPassive ==> input.stream[..input.pos] == output.accepted + Contents()
    {
      Conserves(Abs());
      HeldIs(Abs());
    }

    /** Only one active end is pumped by commits; two are left to the pipeline. */
    function PumpsIn(): bool { !txPassive && rxPassive }
    function PumpsOut(): bool { txPassive && !rxPassive }

    constructor (cells: array<T>, txPassive: bool, rxPassive: bool, input: InputDevice<T>, output: OutputDevice<T>)
      requires MIN_CAPACITY <= cells.Length <= MAX_CAPACITY
      requires input.Valid() && input.pos == 0 && output.accepted == []
      ensures Valid() && Contents() == [] && word == 0 && written == [] && read == []
      ensures this.cells == cells && this.txPassive == txPassive && this.rxPassive == rxPassive
      ensures this.input == input && this.output == output
    {
      hide Inv, Decode;
      this.cells, this.txPassive, this.rxPassive, this.input, this.output := cells, txPassive, rxPassive, input, output;
      word, written, read := 0, [], [];
      new;
      FreshWord(this.cells[..], word);
    }

    /** `update_pos_` with the writer's advance. */
    method UpdateWp(n: nat)
      requires Decode(word).Pos(cells.Length).Valid()
      modifies this`word
      ensures Decode(word) == CommitWp(old(Decode(word)), cells.Length, n)
    {
      hide Unpack, Pack, Decode, Encode;
      UnpackFields(Decode(word), cells.Length);
      CommitsOnWords(word, cells.Length, n);
      ghost var f := CommitWp(Decode(word), cells.Length, n);
      word := Pack(Unpack(word, cells.Length).AdvanceWp(n), word);
      DecodeEncode(f);
    }

    method UpdateRp(n: nat)
      requires Decode(word).Pos(cells.Length).Valid()
      modifies this`word
      ensures Decode(word) == CommitRp(old(Decode(word)), cells.Length, n)
    {
      hide Unpack, Pack, Decode, Encode;
      UnpackFields(Decode(word), cells.Length);
      CommitsOnWords(word, cells.Length, n);
      ghost var f := CommitRp(Decode(word), cells.Length, n);
      word := Pack(Unpack(word, cells.Length).AdvanceRp(n), word);
      DecodeEncode(f);
    }

    /** One load of the word: positions and closed flags. */
    method Load() returns (pos: IoPos, txClosed: bool, rxClosed: bool)
      ensures pos == Decode(word).Pos(cells.Length)
      ensures txClosed == Decode(word).txClosed && rxClosed == Decode(word).rxClosed
    {
      hide Unpack, Decode, Encode, HasFlag;
      UnpackFields(Decode(word), cells.Length);
      TxClosedFlag(Decode(word));
      RxClosedFlag(Decode(word));
      pos := Unpack(word, cells.Length);
      txClosed, rxClosed := HasFlag(word, TX_CLOSED), HasFlag(word, RX_CLOSED);
    }

    /** The items in the `n` cells past the writer: written but not committed. */
    ghost function Uncommitted(n: nat): seq<T>
      requires Decode(word).wp < cells.Length && n <= cells.Length
      reads this, cells
    {
      Window(cells[..], Decode(word).wp, n)
    }

    /** What no call undoes. */
    twostate predicate KeepsClosed()
      reads this
    {
      && (old(Decode(word)).txClosed ==> Decode(word).txClosed)
      && (old(Decode(word)).rxClosed ==> Decode(word).rxClosed)
    }

    /** No call but a close closes an end either. */
    twostate predicate SameClosed()
      reads this
    {
      Decode(word).txClosed == old(Decode(word)).txClosed && Decode(word).rxClosed == old(Decode(word)).rxClosed
    }

    /** A write segment drops after `n` items: commit them, then drain into an active
        reader. */
    method AdvanceWrite(n: nat)
      requires Inv(Abs()) && input.Valid() && n <= Abs().Free() && n <= cells.Length
      requires !txPassive ==> written + Uncommitted(n) == input.stream[..input.pos]
      requires !rxPassive ==> output.accepted == read
      modifies this, cells, input, output
      ensures Valid() && written == old(written + Uncommitted(n)) && SameClosed()
      ensures !PumpsOut() ==> read == old(read) && unchanged(input) && unchanged(output)
      ensures PumpsOut() ==> OutputSettled()
      ensures OutputBarred()
      decreases if PumpsOut() then 3 else 1
    {
      assert Abs().Shape();
      hide Inv, Decode, Window;
      WriteCommits(Abs(), n);
      written := written + Uncommitted(n);
      UpdateWp(n);
      var _ := PumpOutputSync();
    }

    /** A read segment drops after `n` items: commit them, then refill from an active
        writer. */
    method AdvanceRead(n: nat)
      requires Inv(Abs()) && input.Valid() && n <= Abs().Data()
      requires !txPassive ==> written == input.stream[..input.pos]
      requires n <= |Contents()| && (!rxPassive ==> output.accepted == read + Contents()[..n])
      modifies this, cells, input, output
      ensures Valid() && read == old(read + Contents()[..n]) && SameClosed()
      ensures !PumpsIn() ==> written == old(written) && unchanged(input) && unchanged(output)
      ensures PumpsIn() ==> InputSettled()
      ensures InputBarred()
      decreases if PumpsIn() then 3 else 1
    {
      assert Abs().Shape();
      hide Inv, Decode, Window;
      ReadCommits(Abs(), n);
      read := read + Contents()[..n];
      UpdateRp(n);
      var _ := PumpInputSync();
    }

    /** A pump has nothing left to do: an end is closed, the ring is full, or the device
        has stopped. */
    ghost predicate InputSettled()
      reads this, cells, input
    {
      Decode(word).txClosed || Decode(word).rxClosed || |written| == |read| + cells.Length || input.stopped
    }

    ghost predicate OutputSettled()
      reads this, output
    {
      Decode(word).rxClosed || |written| == |read| || output.stopped
    }

    /** A closed write end takes nothing, and nothing is taken for a closed read end. */
    twostate predicate InputBarred()
      reads this, input
    {
      old(Decode(word)).txClosed || old(Decode(word)).rxClosed ==> unchanged(input) && written == old(written)
    }

    /** A closed read end delivers nothing. */
    twostate predicate OutputBarred()
      reads this, output
    {
      old(Decode(word)).rxClosed ==> unchanged(output) && read == old(read)
    }

    /** Refills the ring from the input device while it keeps delivering. Works only
        for an active writer with a passive reader; each round leaves less free space. */
    method PumpInputSync() returns (total: nat)
      requires Valid()
      modifies this, cells, input, output
      ensures Valid() && SameClosed() && read == old(read) && |written| == |old(written)| + total
      ensures !PumpsIn() ==> written == old(written) && word == old(word) && unchanged(input) && unchanged(output)
      ensures PumpsIn() ==> InputSettled()
      ensures InputBarred()
      decreases if PumpsIn() then 2 else 0
    {
      hide Inv, Decode, Window;
      total := 0;
      if txPassive || !rxPassive { return; }
      var go := true;
      while go
        invariant Valid() && SameClosed() && read == old(read) && |written| == |old(written)| + total && InputBarred()
        invariant go || InputSettled()
        decreases go, |read| + cells.Length - |written|
      {
        var moved;
        moved, go := PumpInputOnce();
        total := total + moved;
      }
    }

    method PumpInputOnce() returns (moved: nat, go: bool)
      requires Valid() && PumpsIn()
      modifies this, cells, input, output
      ensures Valid() && SameClosed() && read == old(read) && |written| == |old(written)| + moved
      ensures |written| <= |read| + cells.Length && (go ==> moved > 0) && (go || InputSettled())
      ensures InputBarred()
      decreases 2, 0
    {
      HeldIs(Abs());
      assert Abs().Shape();
      hide Inv, Decode, Window;
      var pos, txClosed, rxClosed := Load();
      if txClosed || rxClosed || pos.FreeSize() == 0 { return 0, false; }
      var outcome;
      moved, outcome := FillSegment(pos.wp, pos.FreeSize());
      AdvanceWrite(moved);
      HeldIs(Abs());
      go := moved > 0 && outcome.Reacted?;
    }

    /** Lends `[start, start + take)` to the input device and reports what it moved. */
    method FillSegment(start: nat, take: nat) returns (moved: nat, outcome: React)
      requires Inv(Abs()) && input.Valid() && start == Decode(word).wp && 0 < take <= Abs().Free()
      requires written == input.stream[..input.pos]
      modifies cells, input
      ensures Inv(Abs()) && input.Valid() && moved <= take <= cells.Length
      ensures written + Uncommitted(moved) == input.stream[..input.pos]
      ensures (moved > 0 && outcome.Reacted?) || input.stopped
    {
      assert take <= cells.Length && start < cells.Length by { WriteCommits(Abs(), 0); }
      hide Inv, Decode, Window, Gather, Blit, Cut;
      moved, outcome := LendToInput(cells, start, take, input, Abs());
    }

    /** Drains the ring into the output device while it keeps accepting. Works only for
        a passive writer with an active reader. */
    method PumpOutputSync() returns (total: nat)
      requires Valid()
      modifies this, cells, input, output
      ensures Valid() && SameClosed() && written == old(written) && |read| == |old(read)| + total
      ensures !PumpsOut() ==> read == old(read) && word == old(word) && unchanged(input) && unchanged(output)
      ensures PumpsOut() ==> OutputSettled()
      ensures OutputBarred()
      decreases if PumpsOut() then 2 else 0
    {
      hide Inv, Decode, Window;
      total := 0;
      if !txPassive || rxPassive { return; }
      var go := true;
      while go
        invariant Valid() && SameClosed() && written == old(written) && |read| == |old(read)| + total && OutputBarred()
        invariant go || OutputSettled()
        decreases go, |written| - |read|
      {
        var moved;
        moved, go := PumpOutputOnce();
        total := total + moved;
      }
    }

    method PumpOutputOnce() returns (moved: nat, go: bool)
      requires Valid() && PumpsOut()
      modifies this, cells, input, output
      ensures Valid() && SameClosed() && written == old(written) && |read| == |old(read)| + moved
      ensures |read| <= |written| && (go ==> moved > 0) && (go || OutputSettled())
      ensures OutputBarred()
      decreases 2, 0
    {
      HeldIs(Abs());
      assert Abs().Shape();
      ReadCommits(Abs(), 0);
      hide Inv, Decode, Window;
      var pos, txClosed, rxClosed := Load();
      if rxClosed || pos.DataSize() == 0 { return 0, false; }
      var outcome;
      moved, outcome := LendToOutput(cells, pos.rp, pos.DataSize(), output, Abs());
      AdvanceRead(moved);
      HeldIs(Abs());
      go := moved > 0 && outcome.Reacted?;
    }

    /** `try_read_at` on the word: the verdict of the machine's lending rule. */
    method ReadAt(min: nat, max: nat) returns (r: Result<(nat, nat), Error>)
      requires Decode(word).Pos(cells.Length).Valid()
      ensures r == TryReadAt(Decode(word), cells.Length, min, max)
    {
      hide Decode;
      var pos, txClosed, rxClosed := Load();
      var ready := pos.DataSize();
      if ready == 0 {
        return Err(if txClosed || rxClosed then Closing else Drained(pos.rp));
      }
      if ready < min && !txClosed && !rxClosed { return Err(Drained(pos.rp)); }
      return Ok((pos.rp, Min(max, ready)));
    }

    method WriteAt(min: nat, max: nat) returns (r: Result<(nat, nat), Error>)
      requires Decode(word).Pos(cells.Length).Valid()
      ensures r == TryWriteAt(Decode(word), cells.Length, min, max)
    {
      hide Decode;
      var pos, txClosed, _ := Load();
      var free := pos.FreeSize();
      if free == 0 || free < min {
        return Err(if txClosed then Closing else Stuffed(pos.wp));
      }
      return Ok((pos.wp, Min(max, free)));
    }

    /** Lent, or refused for good. */
    predicate Final(r: Result<(nat, nat), Error>) { r.Ok? || r.error.Closing? }

    /** A user's try: when the ring cannot serve the demand and is not closing, the
        device at the other end is pumped once before the second and final attempt. */
    method TryRead(min: nat, max: nat) returns (r: Result<(nat, nat), Error>)
      requires Valid() && rxPassive
      modifies this, cells, input, output
      ensures Valid() && SameClosed() && read == old(read)
      ensures Decode(word).Pos(cells.Length).Valid() && r == TryReadAt(Decode(word), cells.Length, min, max)
      ensures |read| + Decode(word).Pos(cells.Length).DataSize() >= |old(written)|
      ensures word == old(word) || !Final(TryReadAt(old(Decode(word)), cells.Length, min, max))
      ensures !PumpsIn() ==> written == old(written) && word == old(word) && unchanged(input) && unchanged(output)
      ensures PumpsIn() && r.Err? && !r.error.Closing? ==> InputSettled()
      ensures r.Ok? ==> r.value.0 == Decode(word).rp < cells.Length && r.value.1 <= Abs().Data() <= cells.Length
      ensures r.Ok? && max > 0 ==> r.value.1 > 0
      ensures r.Err? && r.error.Closing? ==> Decode(word).txClosed || Decode(word).rxClosed
      ensures InputBarred()
    {
      LendsFit(Abs(), min, max);
      HeldIs(Abs());
      assert Abs().Shape();
      hide Inv, Decode, Window, TryReadAt;
      r := ReadAt(min, max);
      if r.Ok? || r.error.Closing? { return; }
      var _ := PumpInputSync();
      LendsFit(Abs(), min, max);
      HeldIs(Abs());
      r := ReadAt(min, max);
    }

    method TryWrite(min: nat, max: nat) returns (r: Result<(nat, nat), Error>)
      requires Valid() && txPassive
      modifies this, cells, input, output
      ensures Valid() && SameClosed() && written == old(written)
      ensures Decode(word).Pos(cells.Length).Valid() && r == TryWriteAt(Decode(word), cells.Length, min, max)
      ensures |old(read)| + Decode(word).Pos(cells.Length).DataSize() <= |written|
      ensures word == old(word) || !Final(TryWriteAt(old(Decode(word)), cells.Length, min, max))
      ensures !PumpsOut() ==> read == old(read) && word == old(word) && unchanged(input) && unchanged(output)
      ensures PumpsOut() && r.Err? && !r.error.Closing? ==> OutputSettled()
      ensures r.Ok? ==> r.value.0 == Decode(word).wp < cells.Length && r.value.1 <= Abs().Free()
      ensures r.Ok? ==> r.value.1 <= cells.Length && (max > 0 ==> r.value.1 > 0)
      ensures r.Err? && r.error.Closing? ==> Decode(word).txClosed
      ensures OutputBarred()
    {
      LendsFit(Abs(), min, max);
      HeldIs(Abs());
      assert Abs().Shape();
      hide Inv, Decode, Window, TryWriteAt;
      r := WriteAt(min, max);
      if r.Ok? || r.error.Closing? { return; }
      var _ := PumpOutputSync();
      LendsFit(Abs(), min, max);
      HeldIs(Abs());
      r := WriteAt(min, max);
    }

    /** A user's write: lends what the demand allows, fills it from `src` and commits just
        what was moved, all the way from the child segments to the ring. `seen` is the
        word of the attempt that decided: the one at the call, unless that was refused for
        lack of space and an active reader was pumped first. */
    method Write(src: Segm<T>, min: nat, max: nat) returns (n: nat, ghost seen: Fields)
      requires Valid() && txPassive && src.Valid() && src.cells != cells
      modifies this, cells, input, output, src`offset
      ensures Valid() && KeepsClosed() && src.Valid() && src.offset == old(src.offset) + n
      ensures written == old(written) + src.Items()[old(src.offset)..src.offset]
      ensures seen.Pos(cells.Length).Valid()
      ensures |old(read)| + seen.Pos(cells.Length).DataSize() <= |old(written)|
      ensures n == (match TryWriteAt(seen, cells.Length, min, max)
        case Ok((_, take)) => Min(old(src.LeastCount()), take)
        case Err(_) => 0)
      ensures seen == old(Decode(word)) || (PumpsOut()
        && !Final(TryWriteAt(old(Decode(word)), cells.Length, min, max)))
      ensures PumpsOut() && n == 0 && old(src.LeastCount()) > 0 && max > 0 ==>
        Decode(word).txClosed || OutputSettled()
      ensures OutputBarred()
    {
      hide Inv, Decode, Window, Gather, TryWriteAt;
      var r := TryWrite(min, max);
      seen := Decode(word);
      if r.Err? {
        assert src.Items()[src.offset..src.offset] == [];
        n := 0;
        return;
      }
      var (start, take) := r.value;
      n := WriteLent(src, start, take);
    }

    /** The lent segment: filled, then dropped. */
    method WriteLent(src: Segm<T>, start: nat, take: nat) returns (n: nat)
      requires Valid() && txPassive && src.Valid() && src.cells != cells
      requires start == Decode(word).wp < cells.Length && take <= Abs().Free() && take <= cells.Length
      modifies this, cells, input, output, src`offset
      ensures Valid() && SameClosed() && src.Valid() && src.offset == old(src.offset) + n
      ensures written == old(written) + src.Items()[old(src.offset)..src.offset]
      ensures n == Min(old(src.LeastCount()), take)
      ensures OutputBarred()
    {
      hide Inv, Decode, Window, Gather;
      n := LendToWriter(cells, start, take, src, Abs());
      AdvanceWrite(n);
    }

    /** A user's read: the items that are moved into `dst` are the next of the stream of
        committed items, as many as the word `seen` lends and as fit. */
    method Read(dst: Segm<T>, min: nat, max: nat) returns (n: nat, ghost seen: Fields)
      requires Valid() && rxPassive && dst.Valid() && dst.cells != cells
      modifies this, cells, input, output, dst`offset, dst.cells
      ensures Valid() && KeepsClosed() && dst.Valid() && dst.offset == old(dst.offset) + n
      ensures |read| == |old(read)| + n && old(read) <= read
      ensures dst.Items() == Blit(old(dst.Items()), old(dst.offset), read[|old(read)|..])
      ensures seen.Pos(cells.Length).Valid()
      ensures |old(read)| + seen.Pos(cells.Length).DataSize() >= |old(written)|
      ensures n == (match TryReadAt(seen, cells.Length, min, max)
        case Ok((_, take)) => Min(take, old(dst.LeastCount()))
        case Err(_) => 0)
      ensures seen == old(Decode(word)) || (PumpsIn()
        && !Final(TryReadAt(old(Decode(word)), cells.Length, min, max)))
      ensures PumpsIn() && n == 0 && old(dst.LeastCount()) > 0 && max > 0 ==>
        Decode(word).rxClosed || InputSettled()
      ensures InputBarred()
    {
      hide Inv, Decode, Window, Gather, TryReadAt, Blit;
      var r := TryRead(min, max);
      seen := Decode(word);
      if r.Err? {
        BlitNothing(dst.Items(), dst.offset);
        assert read[|old(read)|..] == [];
        n := 0;
        return;
      }
      var (start, take) := r.value;
      n := ReadLent(dst, start, take);
    }

    method ReadLent(dst: Segm<T>, start: nat, take: nat) returns (n: nat)
      requires Valid() && rxPassive && dst.Valid() && dst.cells != cells
      requires start == Decode(word).rp < cells.Length && take <= Abs().Data() <= cells.Length
      modifies this, cells, input, output, dst`offset, dst.cells
      ensures Valid() && SameClosed() && dst.Valid() && dst.offset == old(dst.offset) + n
      ensures |read| == |old(read)| + n && old(read) <= read
      ensures dst.Items() == Blit(old(dst.Items()), old(dst.offset), read[|old(read)|..])
      ensures n == Min(take, old(dst.LeastCount()))
      ensures InputBarred()
    {
      hide Inv, Decode, Window, Gather, Blit;
      n := LendToReader(cells, start, take, dst, Abs());
      AdvanceRead(n);
    }

    /** `set_flag_` for either closed flag: nothing else of the word changes. */
    method SetClosed(tx: bool, rx: bool)
      modifies this`word
      ensures Decode(word) == old(Decode(word)).(
        txClosed := tx || old(Decode(word)).txClosed, rxClosed := rx || old(Decode(word)).rxClosed)
    {
      hide Decode, Encode, HasFlag, SetFlag;
      ghost var f := Decode(word);
      TxClosedFlag(f);
      if tx && !HasFlag(word, TX_CLOSED) {
        DecodeEncode(f.(txClosed := true));
        word := SetFlag(word, TX_CLOSED);
      }
      ghost var g := Decode(word);
      RxClosedFlag(g);
      if rx && !HasFlag(word, RX_CLOSED) {
        DecodeEncode(g.(rxClosed := true));
        word := SetFlag(word, RX_CLOSED);
      }
    }

    /** Closes the write end and drains into an active reader. */
    method CloseTx()
      requires Valid()
      modifies this, cells, input, output
      ensures Valid() && Decode(word).txClosed && Decode(word).rxClosed == old(Decode(word)).rxClosed
      ensures written == old(written)
      ensures !PumpsOut() ==> read == old(read) && unchanged(input) && unchanged(output)
      ensures PumpsOut() ==> OutputSettled()
      ensures OutputBarred()
    {
      ClosingKeeps(Abs(), true, Decode(word).rxClosed);
      hide Inv, Decode, Window;
      SetClosed(true, false);
      var _ := PumpOutputSync();
    }

    method CloseRx()
      requires Valid()
      modifies this`word
      ensures Valid() && Decode(word).rxClosed && Decode(word).txClosed == old(Decode(word)).txClosed
    {
      ClosingKeeps(Abs(), Decode(word).txClosed, true);
      hide Inv, Decode, Window;
      SetClosed(false, true);
    }

    ghost function Free(): nat
      reads this, cells
      requires Inv(Abs())
    {
      Abs().Free()
    }

    ghost function Data(): nat
      reads this, cells
      requires Inv(Abs())
    {
      Abs().Data()
    }

    /** One round of the pipeline's input side: one read into one contiguous piece. `shut`
        is what others close while the device is awaited. */
    method PipeInputOnce(shut: Shut) returns (n: nat)
      requires Valid() && !txPassive && !rxPassive
      modifies this, cells, input, output
      ensures Valid() && KeepsClosed() && Closes(shut) && read == old(read) && |written| == |old(written)| + n
      ensures unchanged(output) && (n > 0 || InputSettled())
      ensures old(Free()) > 0 && !old(Decode(word)).txClosed && !old(Decode(word)).rxClosed ==>
        input.asked == Min(old(Free()), cells.Length - old(Decode(word)).wp)
      ensures InputBarred()
    {
      HeldIs(Abs());
      assert Abs().Shape();
      hide Inv, Decode, Window;
      n := 0;
      var pos, txClosed, rxClosed := Load();
      if !txClosed && !rxClosed && pos.FreeSize() > 0 {
        n := ReadInto(pos.wp, Min(pos.FreeSize(), cells.Length - pos.wp));
      }
      ShutEnds(shut, n);
      if n > 0 { AdvanceWrite(n); }
    }

    /** Others close ends while `n` items are written but not committed. */
    method ShutEnds(shut: Shut, ghost n: nat)
      requires Inv(Abs()) && n <= Abs().Free() && n <= cells.Length
      modifies this`word
      ensures Inv(Abs()) && n <= Abs().Free() && Abs().Free() == old(Abs().Free()) && Abs().Data() == old(Abs().Data())
      ensures Uncommitted(n) == old(Uncommitted(n)) && Contents() == old(Contents()) && KeepsClosed() && Closes(shut)
      ensures Decode(word).txClosed == (old(Decode(word)).txClosed || shut.tx)
      ensures Decode(word).rxClosed == (old(Decode(word)).rxClosed || shut.rx)
    {
      ClosingKeeps(Abs(), shut.tx || Decode(word).txClosed, shut.rx || Decode(word).rxClosed);
      assert Abs().Shape();
      hide Inv, Decode, Window;
      SetClosed(shut.tx, shut.rx);
    }

    ghost predicate Closes(shut: Shut)
      reads this
    {
      (shut.tx ==> Decode(word).txClosed) && (shut.rx ==> Decode(word).rxClosed)
    }

    method ReadInto(start: nat, take: nat) returns (n: nat)
      requires Inv(Abs()) && input.Valid() && start == Decode(word).wp
      requires 0 < take <= Abs().Free() && start + take <= cells.Length
      requires written == input.stream[..input.pos]
      modifies cells, input
      ensures Inv(Abs()) && input.Valid() && n <= take && input.pos == old(input.pos) + n
      ensures (n > 0 || input.stopped) && input.asked == take
      ensures written + Uncommitted(n) == input.stream[..input.pos]
    {
      hide Inv, Decode, Window, Filled;
      ghost var r, p0 := Abs(), input.pos;
      var d := input.Read(cells, start, take);
      n := d.Moved();
      BlitFills(r.cells, start, take, input.stream[p0..input.pos]);
      FillKeeps(r, cells[..], take, input.stream[p0..input.pos]);
    }

    /** One round of the output side. */
    method PipeOutputOnce(shut: Shut) returns (n: nat)
      requires Valid() && !txPassive && !rxPassive
      modifies this, cells, input, output
      ensures Valid() && KeepsClosed() && Closes(shut) && written == old(written) && |read| == |old(read)| + n
      ensures unchanged(input) && (n > 0 || OutputSettled())
      ensures old(Data()) > 0 && !old(Decode(word)).rxClosed ==>
        output.asked == Min(old(Data()), cells.Length - old(Decode(word)).rp)
      ensures OutputBarred()
    {
      HeldIs(Abs());
      assert Abs().Shape();
      ReadCommits(Abs(), 0);
      hide Inv, Decode, Window;
      n := 0;
      assert output.accepted == read + Contents()[..n];
      var pos, txClosed, rxClosed := Load();
      if !rxClosed && pos.DataSize() > 0 {
        n := WriteFrom(pos.rp, Min(pos.DataSize(), cells.Length - pos.rp));
      }
      ShutEnds(shut, 0);
      if n > 0 { AdvanceRead(n); }
    }

    method WriteFrom(start: nat, take: nat) returns (n: nat)
      requires Inv(Abs()) && start == Decode(word).rp && take <= Abs().Data() && start + take <= cells.Length
      modifies output
      ensures n <= take <= |Contents()| && output.accepted == old(output.accepted) + Contents()[..n]
      ensures (n > 0 || output.stopped) && output.asked == take
    {
      hide Inv, Decode, Window;
      var d := output.Write(cells, start, take);
      n := d.Moved();
      QueueStart(Abs(), n);
      QueueStart(Abs(), take);
      assert cells[start..start + n] == cells[..][start..start + n];
    }

    /** The pipeline over any number of rounds while others cancel it and close its ends,
        between the rounds and during each device call. At every end of it the input that
        was taken is the output that was delivered and what is left in the ring; it ends
        by itself when both ends are closed, whatever is left, or when nothing is. As long
        as it goes on it delivers, unless nothing is there or the device stops, and takes,
        unless there is no space, an end is closed or the device stops. */
    method Pipe(rounds: seq<PipeRound>) returns (ended: bool)
      requires Valid() && !txPassive && !rxPassive
      modifies this, cells, input, output
      ensures Valid() && KeepsClosed()
      ensures input.stream[..input.pos] == output.accepted + Contents()
      ensures !ended ==> forall i :: 0 <= i < |rounds| ==> !rounds[i].cancelled && ClosesAll(rounds[i])
      ensures ended && (forall i :: 0 <= i < |rounds| ==> !rounds[i].cancelled) ==>
        Decode(word).txClosed && (Decode(word).rxClosed || Contents() == [])
      ensures !ended && |rounds| > 0 ==> |read| > |old(read)| || OutputSettled()
      ensures !ended && |rounds| > 0 ==> |written| > |old(written)| || NothingToTake(|old(written)| - |old(read)|)
      ensures InputBarred() && OutputBarred()
    {
      HeldIs(Abs());
      hide Inv, Decode, Window;
      ended := false;
      for i := 0 to |rounds|
        invariant Valid() && KeepsClosed() && |written| <= |read| + cells.Length && InputBarred() && OutputBarred()
        invariant |read| >= |old(read)| && |written| >= |old(written)|
        invariant forall j :: 0 <= j < i ==> !rounds[j].cancelled && ClosesAll(rounds[j])
        invariant i > 0 ==> |read| > |old(read)| || OutputSettled()
        invariant i > 0 ==> |written| > |old(written)| || NothingToTake(|old(written)| - |old(read)|)
      {
        ended := RunRound(rounds[i]);
        if ended { break; }
      }
      Conserves(Abs());
    }

    ghost predicate ClosesAll(round: PipeRound)
      reads this
    {
      Closes(round.before) && Closes(round.reading) && Closes(round.writing)
    }

    /** Why a round may take nothing, when the ring held `held` items at its start. */
    ghost predicate NothingToTake(held: int)
      reads this, input
    {
      Decode(word).txClosed || Decode(word).rxClosed || held == cells.Length || input.stopped
    }

    /** Both ends are closed when a round looks. */
    ghost predicate BothClosed(before: Shut)
      reads this
    {
      (Decode(word).txClosed || before.tx) && (Decode(word).rxClosed || before.rx)
    }

    /** One round. It ends the pipeline exactly when it was cancelled, when both ends were
        closed at its start, or when it made no progress and is closed for writing and
        empty. A round that goes on takes and delivers what it can. */
    method RunRound(round: PipeRound) returns (ended: bool)
      requires Valid() && !txPassive && !rxPassive
      modifies this, cells, input, output
      ensures Valid() && KeepsClosed() && |written| <= |read| + cells.Length
      ensures |read| >= |old(read)| && |written| >= |old(written)|
      ensures !ended ==> !round.cancelled && ClosesAll(round)
      ensures ended == (round.cancelled || old(BothClosed(round.before))
        || (|written| == |old(written)| && |read| == |old(read)| && Decode(word).txClosed && read == written))
      ensures ended && !round.cancelled ==> Decode(word).txClosed && (Decode(word).rxClosed || read == written)
      ensures !round.cancelled && !old(BothClosed(round.before)) ==>
        && (|read| > |old(read)| || OutputSettled())
        && (|written| > |old(written)| || NothingToTake(|old(written)| - |old(read)|))
      ensures InputBarred() && OutputBarred()
    {
      HeldIs(Abs());
      hide Inv, Decode, Window, InputSettled, OutputSettled, NothingToTake;
      ShutEnds(round.before, 0);
      var _, txClosed, rxClosed := Load();
      if round.cancelled || (txClosed && rxClosed) { return true; }
      var inMoved, outMoved := MoveBoth(round);
      ended := false;
      if inMoved == 0 && outMoved == 0 { ended := IsDrainedClosing(); }
    }

    /** The two device calls of a round. */
    method MoveBoth(round: PipeRound) returns (inMoved: nat, outMoved: nat)
      requires Valid() && !txPassive && !rxPassive
      modifies this, cells, input, output
      ensures Valid() && KeepsClosed() && Closes(round.reading) && Closes(round.writing)
      ensures |written| == |old(written)| + inMoved && |read| == |old(read)| + outMoved
      ensures |written| <= |read| + cells.Length
      ensures inMoved > 0 || NothingToTake(|old(written)| - |old(read)|)
      ensures outMoved > 0 || OutputSettled()
      ensures InputBarred() && OutputBarred()
    {
      hide Inv, Decode, Window, OutputSettled;
      inMoved := PipeInputOnce(round.reading);
      outMoved := PipeOutputOnce(round.writing);
      HeldIs(Abs());
    }

    /** Closed for writing and empty. */
    method IsDrainedClosing() returns (b: bool)
      requires Valid()
      ensures b == (Decode(word).txClosed && read == written)
    {
      HeldIs(Abs());
      Conserves(Abs());
      hide Inv, Decode, Window;
      var pos, txClosed, _ := Load();
      b := txClosed && pos.DataSize() == 0;
    }
  }

  /** Which ends others close at one moment. */
  datatype Shut = Shut(tx: bool, rx: bool)

  /** What others do to a running pipeline: whether its token is cancelled by the start of
      a round, and what they close before it and during its two device calls. */
  datatype PipeRound = PipeRound(cancelled: bool, before: Shut, reading: Shut, writing: Shut)

  lemma ClosingKeeps<T>(r: Ring<T>, tx: bool, rx: bool)
    requires Inv(r)
    ensures r.word.Valid()
    ensures var r' := r.(word := r.word.(txClosed := tx, rxClosed := rx));
      Inv(r') && r'.Queue() == r.Queue() && r'.Data() == r.Data() && r'.Free() == r.Free()
  {
    var r' := r.(word := r.word.(txClosed := tx, rxClosed := rx));
    assert r'.Pos() == r.Pos() && r'.Queue() == r.Queue();
  }

  /** What is lent is what is free, or there to be read. */
  lemma LendsFit<T>(r: Ring<T>, min: nat, max: nat)
    requires Inv(r)
    ensures match TryWriteAt(r.word, r.Cap(), min, max)
      case Ok((start, take)) =>
        start == r.word.wp < r.Cap() && take <= r.Free() && take <= r.Cap() && (max > 0 ==> take > 0)
      case Err(e) => e.Closing? ==> r.word.txClosed
    ensures match TryReadAt(r.word, r.Cap(), min, max)
      case Ok((start, take)) =>
        start == r.word.rp < r.Cap() && take <= r.Data() <= r.Cap() && (max > 0 ==> take > 0)
      case Err(e) => e.Closing? ==> r.word.txClosed || r.word.rxClosed
  {}

  lemma BlitFills<T>(cells: seq<T>, start: nat, take: nat, given: seq<T>)
    requires start < |cells| && start + take <= |cells| && |given| <= take
    ensures Filled(cells, Blit(cells, start, given), Cut(start, take, |cells|), given)
  {
    GatherBlit(cells, Cut(start, take, |cells|), 0, given);
  }

  lemma QueueStart<T>(r: Ring<T>, take: nat)
    requires Inv(r) && take <= r.Data() && r.word.rp + take <= r.Cap()
    ensures take <= |r.Queue()| && r.cells[r.word.rp..r.word.rp + take] == r.Queue()[..take]
  {}

  lemma Conserves<T>(r: Ring<T>)
    requires Inv(r)
    ensures r.sent == r.got + r.Queue() && (r.got == r.sent <==> r.Data() == 0)
  {}
}
