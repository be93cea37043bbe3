/** The handshake's own exact read, as it is written, over the circular buffer. It demands
    exactly `n` bytes, copies whatever it is lent and takes nothing of it. */
module HandshakeOverRing {
  import opened Common
  import opened FrameCodec
  import opened FrameLaws
  import opened Handshake
  import Segments
  import Ring
  import RingWord

  type ByteRing = Ring.Ring<Byte>

  // -------------------------------------------------------------------------
  // One exact read
  // -------------------------------------------------------------------------

  /** The copy of `read_exact_into_`: slice by slice to the front of `out`, which panics at
      a slice that runs past its end. The segment does not advance. */
  method CopySlices(segm: Segments.Segm<Byte>, out: array<Byte>, from: nat, to: nat) returns (ok: bool)
    requires segm.Valid() && from <= to <= out.Length && segm.cells != out
    modifies out
    ensures ok == (segm.LeastCount() <= to - from)
    ensures ok ==> out[..] == Segments.Blit(old(out[..]), from, segm.Items()[segm.offset..])
    ensures forall i :: 0 <= i < out.Length && !(from <= i < to) ==> out[i] == old(out[i])
  {
    hide Segments.Blit, Segments.Gather;
    var p, at := segm.pieces, segm.offset;
    ghost var was, items := out[..], segm.Items();
    var (start, len) := p.Current(at);
    Segments.CurrentIsARun(p, at);
    Segments.RunOfItems(segm.cells[..], p, at, len);
    if len > to - from { return false; }
    Copy(segm.cells, start, out, from, len);
    ghost var x := items[at..at + len];
    assert segm.cells[start..start + len] == x;
    at := at + len;
    if at < p.Len() {
      var (start2, len2) := p.Current(at);
      Segments.CurrentIsARun(p, at);
      Segments.RunOfItems(segm.cells[..], p, at, len2);
      if len + len2 > to - from { return false; }
      Copy(segm.cells, start2, out, from + len, len2);
      ghost var y := items[at..at + len2];
      assert segm.cells[start2..start2 + len2] == y;
      Segments.BlitTwice(was, from, x, y);
      assert items[segm.offset..] == x + y;
    } else {
      assert items[segm.offset..] == x;
    }
    return true;
  }

  method Copy(src: array<Byte>, start: nat, out: array<Byte>, at: nat, n: nat)
    requires src != out && start + n <= src.Length && at + n <= out.Length
    modifies out
    ensures out[..] == Segments.Blit(old(out[..]), at, src[start..start + n])
    ensures forall i :: 0 <= i < out.Length && !(at <= i < at + n) ==> out[i] == old(out[i])
  {
    forall i | 0 <= i < n {
      out[at + i] := src[start + i];
    }
  }

  /** An exact demand for `n` is lent by the ring up to one item more, so the copy runs
      past its `n` bytes exactly when more than `n` are there. */
  lemma OverrunsExactly(word: RingWord.Fields, cap: nat, n: nat)
    requires word.Pos(cap).Valid() && n >= 1
    ensures var r := Ring.TryReadAt(word, cap, n, n + 1);
      (r.Ok? && r.value.1 > n) <==> word.Pos(cap).DataSize() > n
  {}

  // -------------------------------------------------------------------------
  // The queue of a ring that nobody takes from
  // -------------------------------------------------------------------------

  /** The reader lends, as above, and commits nothing. */
  ghost predicate TakesNothing(acts: seq<Ring.Action<Byte>>) {
    forall i :: 0 <= i < |acts| ==> !acts[i].Take?
  }

  /** Then the queue only ever grows, over every run of the ring. */
  lemma {:induction false} UntakenGrows(r: ByteRing, acts: seq<Ring.Action<Byte>>)
    requires Ring.Inv(r) && Ring.Runs(r, acts) && TakesNothing(acts) && (r.rx.Lent? ==> r.rx.items == [])
    ensures Ring.Inv(Ring.Run(r, acts)) && r.Queue() <= Ring.Run(r, acts).Queue()
    decreases |acts|
  {
    if acts != [] {
      Ring.StepRefines(r, acts[0]);
      UntakenStep(r, acts[0]);
      var r1 := Ring.Step(r, acts[0]);
      assert Ring.Inv(r1);
      assert Ring.Runs(r1, acts[1..]) && Ring.Run(r, acts) == Ring.Run(r1, acts[1..]);
      hide Ring.Inv, Ring.Step, Ring.Refines;
      UntakenGrows(r1, acts[1..]);
    }
  }

  lemma UntakenStep(r: ByteRing, a: Ring.Action<Byte>)
    requires Ring.Inv(r) && Ring.Enabled(r, a) && !a.Take? && (r.rx.Lent? ==> r.rx.items == [])
    ensures Ring.Inv(Ring.Step(r, a)) && r.Queue() <= Ring.Step(r, a).Queue()
    ensures var r1 := Ring.Step(r, a); r1.rx.Lent? ==> r1.rx.items == []
  {
    Ring.StepRefines(r, a);
    if a.CommitRead? { assert [] + Ring.Step(r, a).Queue() == Ring.Step(r, a).Queue(); }
  }

  // -------------------------------------------------------------------------
  // Reading a frame
  // -------------------------------------------------------------------------

  datatype Outcome = Panics | Waits | Returns(r: Result<Frame, HandshakeError>)

  function Zeros(n: nat): Bytes { seq(n, _ => 0) }

  /** `read_frame_async_` with its own exact read. `rings` is the ring at each poll; what
      is lent there is a front of its queue, and `buf` what the reader holds: bytes that
      a closed ring did not have stay zero. */
  ghost function CodedFrame(c: Checksums, max: nat, buf: Bytes, rings: seq<ByteRing>): Outcome
    requires forall i :: 0 <= i < |rings| ==> Ring.Inv(rings[i])
    decreases |rings|
  {
    match Parse(c, buf, max)
    case Ok((frame, _)) => Returns(Ok(frame))
    case Err(NeedMore(need)) =>
      if need > Min(max, MAX_HANDSHAKE_FRAME) then Returns(Err(HandshakeError.FrameTooLarge))
      else if rings == [] then Waits
      else
        var r, n := rings[0], if need > |buf| then need - |buf| else 1;
        assert Ring.Inv(r);
        (match Ring.TryReadAt(r.word, r.Cap(), n, n + 1)
         case Err(Closing) => Returns(Err(PeerClosed))
         case Err(_) => CodedFrame(c, max, buf, rings[1..])
         case Ok((_, take)) =>
           if take > n then Panics
           else CodedFrame(c, max, buf + r.Queue()[..Min(take, |r.Queue()|)] + Zeros(n - take), rings[1..]))
    case Err(e) => Returns(Err(ErrorOf(e)))
  }

  /** One ring as it is polled: nothing is taken from it. */
  ghost predicate Polls(rings: seq<ByteRing>) {
    && (forall i :: 0 <= i < |rings| ==> Ring.Inv(rings[i]))
    && forall i, j :: 0 <= i <= j < |rings| ==> |rings[i].Queue()| <= |rings[j].Queue()|
  }

  lemma LentIs(r: ByteRing, n: nat)
    requires Ring.Inv(r) && n >= 1
    ensures |r.Queue()| == r.Data()
    ensures match Ring.TryReadAt(r.word, r.Cap(), n, n + 1)
      case Ok((_, take)) => take == Min(n + 1, |r.Queue()|) && take > 0
      case Err(Closing) => true
      case Err(_) => |r.Queue()| < n
    ensures |r.Queue()| >= n ==> Ring.TryReadAt(r.word, r.Cap(), n, n + 1).Ok?
  {}

  /** With four bytes in hand, all still in the ring, the read of the fifth overruns. */
  lemma {:induction false} FifthByte(c: Checksums, max: nat, buf: Bytes, rings: seq<ByteRing>)
    requires |buf| == 4 && Polls(rings) && (forall i :: 0 <= i < |rings| ==> |rings[i].Queue()| >= 4)
    ensures !CodedFrame(c, max, buf, rings).Returns? || CodedFrame(c, max, buf, rings).r.Err?
    ensures max >= 5 && rings != [] && IsMagic(buf) ==> CodedFrame(c, max, buf, rings) == Panics
  {
    assert buf[..4] == buf;
    if rings != [] { LentIs(rings[0], 1); }
  }

  /** Over the ring no party ever reads a frame, whatever arrives when, whether an end is
      closed, and whatever the checksums and the limit: so none returns Ok. */
  lemma {:induction false} NoFrameOverRing(c: Checksums, max: nat, rings: seq<ByteRing>)
    requires Polls(rings)
    ensures !CodedFrame(c, max, [], rings).Returns? || CodedFrame(c, max, [], rings).r.Err?
    decreases |rings|
  {
    if rings != [] && max >= 4 {
      var r := rings[0];
      LentIs(r, 4);
      var take := Min(5, |r.Queue()|);
      if Ring.TryReadAt(r.word, r.Cap(), 4, 5).Ok? {
        if take <= 4 {
          var buf := [] + r.Queue()[..take] + Zeros(4 - take);
          if take == 4 {
            FifthByte(c, max, buf, rings[1..]);
          } else {
            assert buf[3] == 0;
            assert buf[..4] == buf;
          }
        }
      } else {
        NoFrameOverRing(c, max, rings[1..]);
      }
    }
  }

  /** A whole frame in an open or closed ring is the plain case: the very first read, of
      the magic, panics. */
  lemma WholeFramePanics(c: Checksums, max: nat, magic: Magic, values: Values, r: ByteRing, more: seq<ByteRing>)
    requires Ring.Inv(r) && Polls([r] + more) && Build(c, magic, values) <= r.Queue() && max >= 4
    ensures CodedFrame(c, max, [], [r] + more) == Panics
  {
    BuiltLength(c, magic, values);
    hide Build;
    assert ([r] + more)[0] == r;
    LentIs(r, 4);
  }

  /** Nothing is gone at a later poll. */
  lemma StillThere(r: ByteRing, more: seq<ByteRing>, j: nat)
    requires Ring.Inv(r) && Polls([r] + more) && Polls(more) && j < |more|
    ensures |more[j].Queue()| >= |r.Queue()|
  {
    var rings := [r] + more;
    assert rings[0] == r && rings[j + 1] == more[j];
    hide Ring.Inv;
    assert |rings[0].Queue()| <= |rings[j + 1].Queue()|;
  }

  /** One poll for the magic. */
  lemma MagicPoll(c: Checksums, max: nat, r: ByteRing, more: seq<ByteRing>)
    requires Ring.Inv(r) && Polls([r] + more) && Polls(more) && max >= 4
    ensures var q, closed := r.Queue(), r.word.txClosed || r.word.rxClosed;
      CodedFrame(c, max, [], [r] + more) ==
        if |q| > 4 then Panics
        else if |q| == 4 then CodedFrame(c, max, q, more)
        else if !closed then CodedFrame(c, max, [], more)
        else if q == [] then Returns(Err(PeerClosed))
        else CodedFrame(c, max, q + Zeros(4 - |q|), more)
  {
    var rings, q := [r] + more, r.Queue();
    assert rings[0] == r && rings[1..] == more;
    FourLent(r);
    assert [] + q[..|q|] == q && q + Zeros(0) == q;
    assert Parse(c, [], max) == Err(NeedMore(4));
    hide Ring.Inv, Ring.TryReadAt, Polls, Parse, Zeros;
  }

  lemma FourLent(r: ByteRing)
    requires Ring.Inv(r)
    ensures var q, closed := r.Queue(), r.word.txClosed || r.word.rxClosed;
      match Ring.TryReadAt(r.word, r.Cap(), 4, 5)
      case Ok((_, take)) => take == Min(5, |q|) && take > 0 && (|q| >= 4 || closed)
      case Err(Closing) => q == [] && closed
      case Err(_) => |q| < 4 && !closed
  {
    LentIs(r, 4);
    Ring.ReadLentExactly(r, 4, 5);
    assert |r.sent| - |r.got| == |r.Queue()|;
    hide Ring.TryReadAt;
  }

  /** What the first read comes to, exactly: with more than four bytes there it panics; a
      closed ring with less gives the end of the peer, or zeros in place of what is missing
      of the magic; an open one with less is polled again; and just four bytes are read, to
      be read once more. */
  lemma FirstReadExactly(c: Checksums, max: nat, r: ByteRing, more: seq<ByteRing>)
    requires Ring.Inv(r) && Polls([r] + more) && Polls(more) && max >= 5
    ensures var q, closed := r.Queue(), r.word.txClosed || r.word.rxClosed;
      CodedFrame(c, max, [], [r] + more) ==
        if |q| > 4 then Panics
        else if |q| == 4 then
          (if !IsMagic(q) then Returns(Err(HandshakeError.InvalidMagic)) else if more == [] then Waits else Panics)
        else if !closed then CodedFrame(c, max, [], more)
        else if q == [] then Returns(Err(PeerClosed))
        else Returns(Err(HandshakeError.InvalidMagic))
  {
    var q := r.Queue();
    MagicPoll(c, max, r, more);
    forall j | 0 <= j < |more| ensures |more[j].Queue()| >= |r.Queue()| { StillThere(r, more, j); }
    hide Ring.Inv, Polls, CodedFrame, Zeros;
    if |q| == 4 {
      FourBytes(c, max, q, more);
    } else if 0 < |q| < 4 {
      TornMagic(c, max, q, more);
    }
  }

  lemma FourBytes(c: Checksums, max: nat, q: Bytes, more: seq<ByteRing>)
    requires |q| == 4 && max >= 5 && Polls(more) && forall i :: 0 <= i < |more| ==> |more[i].Queue()| >= 4
    ensures CodedFrame(c, max, q, more) ==
      if !IsMagic(q) then Returns(Err(HandshakeError.InvalidMagic)) else if more == [] then Waits else Panics
  {
    assert q[..4] == q;
    FifthByte(c, max, q, more);
    hide Ring.Inv;
  }

  lemma TornMagic(c: Checksums, max: nat, q: Bytes, more: seq<ByteRing>)
    requires 0 < |q| < 4 && max >= 4 && Polls(more)
    ensures CodedFrame(c, max, q + Zeros(4 - |q|), more) == Returns(Err(HandshakeError.InvalidMagic))
  {
    var buf := q + Zeros(4 - |q|);
    assert buf[3] == 0 && buf[..4] == buf;
    hide Ring.Inv;
  }
}
