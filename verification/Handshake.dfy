/** The four-message handshake: the frame reader, the options both sides settle on, and
    initiator and responder as one joint machine over two ordered byte streams. */
module Handshake {
  import opened Common
  import opened FrameCodec
  import opened FrameLaws
  import Segments

  datatype HandshakeError =
    | Rejected | PeerRejected | Cancelled | RxErr | TxErr | InvalidMagic | ChecksumErr | FrameTooLarge
    | MalformedBody | UnsupportedOption | Inconsistent | PeerClosed

  // -------------------------------------------------------------------------
  // Reading one frame
  // -------------------------------------------------------------------------

  function ErrorOf(e: ParseError): HandshakeError
    requires !e.NeedMore?
  {
    match e
    case InvalidMagic => HandshakeError.InvalidMagic
    case UnsupportedOption => HandshakeError.UnsupportedOption
    case MalformedBody => HandshakeError.MalformedBody
    case FrameTooLarge => HandshakeError.FrameTooLarge
    case ChecksumErr => HandshakeError.ChecksumErr
  }

  /** What reading a frame from a stream that ends after `rest` comes to: the parser's
      verdict on all of it at once. */
  function Received(c: Checksums, rest: Bytes, max: nat): Result<(Frame, nat), HandshakeError> {
    match Parse(c, rest, max)
    case Ok(v) => Ok(v)
    case Err(NeedMore(n)) => Err(if n > max then HandshakeError.FrameTooLarge else PeerClosed)
    case Err(e) => Err(ErrorOf(e))
  }

  /** An ordered byte stream, read in exact amounts until it ends. */
  class ByteStream {
    const data: Bytes
    var pos: nat

    constructor (data: Bytes)
      ensures Valid() && this.data == data && pos == 0
    {
      this.data, pos := data, 0;
    }

    ghost predicate Valid()
      reads this
    {
      pos <= |data|
    }

    function Rest(): Bytes
      requires Valid()
      reads this
    {
      data[pos..]
    }

    /** `read_exact_into_`: fills `out[from..to]`, or reports that the peer closed. */
    method ReadExact(out: array<Byte>, from: nat, to: nat) returns (ok: bool)
      requires Valid() && from <= to <= out.Length
      modifies this, out
      ensures Valid() && ok == (to - from <= |old(Rest())|)
      ensures pos == old(pos) + if ok then to - from else 0
      ensures ok ==> out[..to] == old(out[..from]) + old(Rest())[..to - from]
    {
      ok := to - from <= |data| - pos;
      if ok {
        forall i | from <= i < to {
          out[i] := data[pos + (i - from)];
        }
        pos := pos + (to - from);
      }
    }
  }

  /** `read_frame_async_`: reads just what the parser asks for, field by field. It gives
      the verdict on the whole stream, and an accepted frame is taken to its last byte
      and not one further. */
  method ReadFrame(c: Checksums, rx: ByteStream, max: nat) returns (r: Result<Frame, HandshakeError>)
    requires rx.Valid()
    modifies rx
    ensures rx.Valid()
    ensures match Received(c, old(rx.Rest()), max)
      case Ok((frame, n)) => r == Ok(frame) && rx.pos == old(rx.pos) + n
      case Err(e) => r == Err(e) && old(rx.pos) <= rx.pos <= old(rx.pos) + 49
  {
    hide Parse, Received;
    ghost var rest := rx.Rest();
    var buf := new Byte[MAX_HANDSHAKE_FRAME];
    var len: nat := 0;
    while true
      invariant rx.Valid() && len <= 49 && len <= |rest| && rx.pos == old(rx.pos) + len
      invariant buf[..len] == rest[..len]
      invariant Parse(c, rest, max).Ok? ==> len <= Parse(c, rest, max).value.1
      decreases 49 - len
    {
      var p := ParseFrame(c, buf[..len], max);
      if p.Err? && p.error.NeedMore? {
        var need, cap := p.error.n, Min(max, MAX_HANDSHAKE_FRAME);
        Asked(c, rest, len, max);
        if need > cap { return Err(HandshakeError.FrameTooLarge); }
        ghost var tail := rx.Rest();
        assert tail == rest[len..];
        var ok := rx.ReadExact(buf, len, need);
        if !ok { return Err(PeerClosed); }
        assert tail[..need - len] == rest[len..need];
        assert rest[..len] + rest[len..need] == rest[..need];
        len := need;
      } else {
        Settled(c, rest, len, max);
        return if p.Ok? then Ok(p.value.0) else Err(ErrorOf(p.error));
      }
    }
  }

  lemma Asked(c: Checksums, rest: Bytes, len: nat, max: nat)
    requires len <= |rest| && Parse(c, rest[..len], max).Err? && Parse(c, rest[..len], max).error.NeedMore?
    ensures var n := Parse(c, rest[..len], max).error.n;
      && len < n <= 49
      && (n > max ==> Received(c, rest, max) == Err(HandshakeError.FrameTooLarge))
      && (n <= max && |rest| < n ==> Received(c, rest, max) == Err(PeerClosed))
      && (Parse(c, rest, max).Ok? ==> n <= Parse(c, rest, max).value.1)
  {
    hide Parse;
    NeedMoreMeans(c, rest[..len], rest, max);
    RequestsFitTheBuffer(c, rest[..len], max);
  }

  lemma Settled(c: Checksums, rest: Bytes, len: nat, max: nat)
    requires len <= |rest| && !(Parse(c, rest[..len], max).Err? && Parse(c, rest[..len], max).error.NeedMore?)
    requires Parse(c, rest, max).Ok? ==> len <= Parse(c, rest, max).value.1
    ensures match Parse(c, rest[..len], max)
      case Ok((frame, n)) => Received(c, rest, max) == Ok((frame, n)) && n == len
      case Err(e) => Received(c, rest, max) == Err(ErrorOf(e))
  {
    hide Parse;
    assert rest[..len] + rest[len..] == rest;
    StableUnderExtension(c, rest[..len], rest[len..], max);
    if Parse(c, rest[..len], max).Ok? { AcceptedFits(c, rest[..len], max); }
  }

  // -------------------------------------------------------------------------
  // Writing one frame
  // -------------------------------------------------------------------------

  /** What goes out of a frame when the current piece of the write segment has `room`. */
  function Sent(frame: Bytes, room: nat): Bytes { frame[..Min(room, |frame|)] }

  /** `write_frame_async_` on the segment it was lent: it copies into the current piece
      only, and reports success whatever was copied. */
  method WriteFrame(c: Checksums, magic: Magic, values: Values, segm: Segments.Segm<Byte>) returns (ok: bool)
    requires segm.Valid()
    modifies segm, segm.cells
    ensures ok && segm.Valid()
    ensures var sent := Sent(Build(c, magic, values), segm.pieces.Current(old(segm.offset)).1);
      && segm.offset == old(segm.offset) + |sent|
      && segm.Items() == Segments.Blit(old(segm.Items()), old(segm.offset), sent)
  {
    BuiltLength(c, magic, values);
    hide Segments.Blit, Segments.Gather, Build;
    var buf := new Byte[MAX_HANDSHAKE_FRAME];
    var n := BuildFrame(c, magic, values, buf);
    var (from, room) := segm.pieces.Current(segm.offset);
    ghost var sent := Sent(Build(c, magic, values), room);
    Segments.GatherBlit(segm.cells[..], segm.pieces, segm.offset, sent);
    assert buf[0..|sent|] == buf[..n.value][..|sent|];
    var written := Segments.CopySlice(buf, 0, n.value, segm.cells, from, room);
    segm.offset := segm.offset + written;
    ok := true;
  }

  /** A frame that is lent in the ring goes out whole exactly when it ends before the end
      of the buffer. */
  lemma WholeExactly(frame: Bytes, start: nat, take: nat, cap: nat)
    requires start < cap && |frame| <= take <= cap
    ensures Sent(frame, Segments.Cut(start, take, cap).Current(0).1) == frame <==> start + |frame| <= cap
  {
    var room := Segments.Cut(start, take, cap).Current(0).1;
    if room < |frame| { assert |Sent(frame, room)| < |frame|; }
  }

  // -------------------------------------------------------------------------
  // Options
  // -------------------------------------------------------------------------

  datatype Duration = Duration(secs: U64, nanos: nat)

  datatype BasicOpts = BasicOpts(
    maxPacketSize: U64, maxChannelCount: U64, maxDockChanCount: U64, maxChannelTimeout: Duration)

  const DEFAULT: BasicOpts := BasicOpts(4096, 0x1000_0000, 0x1000_0000, Duration(30, 0))

  function UnwrapOr(v: Option<U64>, default: U64): U64 {
    if v.Some? then v.value else default
  }

  function ValuesToBasic(values: Values): BasicOpts {
    BasicOpts(
      UnwrapOr(values[0], DEFAULT.maxPacketSize), UnwrapOr(values[1], DEFAULT.maxChannelCount),
      UnwrapOr(values[2], DEFAULT.maxDockChanCount), Duration(UnwrapOr(values[3], 30), 0))
  }

  function BasicToValues(opts: BasicOpts): Values {
    [Some(opts.maxPacketSize), Some(opts.maxChannelCount), Some(opts.maxDockChanCount),
     Some(opts.maxChannelTimeout.secs)]
  }

  predicate IsComplete(values: Values) {
    forall k :: 0 <= k < 4 ==> values[k].Some?
  }

  const EMPTY: Values := [None, None, None, None]

  /** `local` with every value that `invited` names in place of its own. */
  function Settle(local: BasicOpts, invited: Values): Values {
    seq(4, k requires 0 <= k < 4 => if invited[k].Some? then invited[k] else BasicToValues(local)[k])
  }

  /** Field by field: the invited value or the local one, the time-out in whole seconds. */
  lemma SettledOptions(local: BasicOpts, invited: Values)
    ensures IsComplete(Settle(local, invited))
    ensures ValuesToBasic(Settle(local, invited)) == BasicOpts(
      UnwrapOr(invited[0], local.maxPacketSize), UnwrapOr(invited[1], local.maxChannelCount),
      UnwrapOr(invited[2], local.maxDockChanCount), Duration(UnwrapOr(invited[3], local.maxChannelTimeout.secs), 0))
    ensures BasicToValues(ValuesToBasic(Settle(local, invited))) == Settle(local, invited)
  {
    assert forall k :: 0 <= k < 4 ==> Settle(local, invited)[k].Some?;
  }

  /** `complete_invite_`. */
  method CompleteInvite(local: BasicOpts, entries: Entries) returns (values: Values)
    ensures values == Settle(local, ValuesOf(entries))
  {
    values := BasicToValues(local);
    for k := 0 to 4
      invariant forall j :: 0 <= j < 4 ==>
        values[j] == if j < k && entries[j].Some? then Some(entries[j].value.val) else BasicToValues(local)[j]
    {
      if entries[k].Some? { values := values[k := Some(entries[k].value.val)]; }
    }
  }

  /** `complete_values_`: the values, if all four are there. */
  function Completed(entries: Entries): Option<Values> {
    if IsComplete(ValuesOf(entries)) then Some(ValuesOf(entries)) else None
  }

  method CompleteValues(entries: Entries) returns (r: Option<Values>)
    ensures r == Completed(entries)
  {
    var values: Values := EMPTY;
    for k := 0 to 4
      invariant forall j :: 0 <= j < 4 ==> values[j] == if j < k then ValuesOf(entries)[j] else None
    {
      values := values[k := if entries[k].Some? then Some(entries[k].value.val) else None];
    }
    assert values == ValuesOf(entries);
    r := if IsComplete(values) then Some(values) else None;
  }

  /** `confirm_matches_`. */
  predicate ConfirmMatches(entries: Entries, expected: Values) {
    Completed(entries).Some? && forall k :: 0 <= k < 4 ==> Completed(entries).value[k] == expected[k]
  }

  /** A confirmation passes exactly when it carries the four expected values, under
      whatever headers. */
  lemma ConfirmsExactly(entries: Entries, expected: Values)
    requires IsComplete(expected)
    ensures ConfirmMatches(entries, expected) <==> ValuesOf(entries) == expected
  {}

  /** The initiator's check of its own invitation, entry by entry. */
  function Propose(invite: seq<Entry>, i: nat, seen: Values): Result<Values, HandshakeError>
    requires i <= |invite|
    decreases |invite| - i
  {
    if i == |invite| then Ok(seen)
    else
      var key := invite[i].optsKey % 0x10;
      if key >= 4 then Err(HandshakeError.UnsupportedOption)
      else if seen[key].Some? || invite[i].val == 0 then Err(HandshakeError.MalformedBody)
      else Propose(invite, i + 1, seen[key := Some(invite[i].val)])
  }

  method CheckInvite(invite: seq<Entry>) returns (r: Result<Values, HandshakeError>)
    ensures r == Propose(invite, 0, EMPTY)
  {
    var proposed := EMPTY;
    for i := 0 to |invite|
      invariant Propose(invite, 0, EMPTY) == Propose(invite, i, proposed)
    {
      var key := invite[i].optsKey % 0x10;
      if key >= 4 { return Err(HandshakeError.UnsupportedOption); }
      if proposed[key].Some? || invite[i].val == 0 { return Err(HandshakeError.MalformedBody); }
      proposed := proposed[key := Some(invite[i].val)];
    }
    r := Ok(proposed);
  }

  predicate Names(e: Entry, key: nat, v: U64) {
    e.optsKey % 0x10 == key && e.val == v
  }

  /** An invitation that passes names each key at most once and no zero, and what is
      proposed is just what it names. */
  lemma {:induction false} ProposedIsInvited(invite: seq<Entry>, i: nat, seen: Values)
    requires i <= |invite| && Propose(invite, i, seen).Ok? && NoZero(seen)
    ensures NoZero(Propose(invite, i, seen).value)
    ensures forall k, v: U64 :: 0 <= k < 4 ==>
      (Propose(invite, i, seen).value[k] == Some(v) <==>
        seen[k] == Some(v) || exists j :: i <= j < |invite| && Names(invite[j], k, v))
    decreases |invite| - i
  {
    if i < |invite| {
      var key := invite[i].optsKey % 0x10;
      var more := seen[key := Some(invite[i].val)];
      ProposedIsInvited(invite, i + 1, more);
      hide Propose;
      assert forall k :: 0 <= k < 4 && k != key ==> more[k] == seen[k];
    }
  }

  // -------------------------------------------------------------------------
  // The joint machine
  // -------------------------------------------------------------------------

  datatype Initiator =
    | IStart | AwaitAccept | AwaitDone(accepted: Values) | IOk(opts: BasicOpts) | IFailed(why: HandshakeError)

  datatype Responder =
    | RStart | AwaitConfirm(answered: Values) | ROk(opts: BasicOpts) | RFailed(why: HandshakeError)

  datatype Config = Config(c: Checksums, invite: seq<Entry>, local: BasicOpts, iMax: nat, rMax: nat)

  /** Both parties and the bytes under way in either direction. */
  datatype Joint = Joint(i: Initiator, r: Responder, toR: Bytes, toI: Bytes)

  /** One party acts: it takes one frame off its stream, if it waits for one, and does
      all it does up to its next wait. `accepts` is the answer of the caller's decider,
      `room` the length of the piece that its own frame is written to.
      At any moment a party may also give up, on a cancellation or an error of its
      transport. */
  datatype Act =
    | SendInvite(room: nat)                // initiator, first frame
    | Answer(accepts: bool, room: nat)     // responder, on the invitation
    | Confirm(accepts: bool, room: nat)    // initiator, on the acceptance
    | Commit(room: nat)                    // responder, on the confirmation
    | Finish                               // initiator, on the empty confirmation
    | GiveUpI(why: HandshakeError) | GiveUpR(why: HandshakeError)

  predicate FromOutside(e: HandshakeError) { e.Cancelled? || e.RxErr? || e.TxErr? }

  /** Whether a reader has to wait: its stream holds no whole frame yet, and the sender
      may still send. */
  predicate Blocked(c: Checksums, buf: Bytes, max: nat, senderGone: bool) {
    Received(c, buf, max) == Err(PeerClosed) && !senderGone
  }

  predicate Enabled(cfg: Config, s: Joint, a: Act) {
    match a
    case SendInvite(_) => s.i.IStart?
    case Answer(_, _) => s.r.RStart? && !Blocked(cfg.c, s.toR, cfg.rMax, s.i.IFailed?)
    case Confirm(_, _) => s.i.AwaitAccept? && !Blocked(cfg.c, s.toI, cfg.iMax, s.r.RFailed?)
    case Commit(_) => s.r.AwaitConfirm? && !Blocked(cfg.c, s.toR, cfg.rMax, s.i.IFailed?)
    case Finish => s.i.AwaitDone? && !Blocked(cfg.c, s.toI, cfg.iMax, s.r.RFailed?)
    case GiveUpI(why) => !s.i.IOk? && !s.i.IFailed? && FromOutside(why)
    case GiveUpR(why) => !s.r.ROk? && !s.r.RFailed? && FromOutside(why)
  }

  function OnInvite(cfg: Config, s: Joint, frame: Frame, accepts: bool, room: nat): Joint {
    var values := Settle(cfg.local, ValuesOf(frame.entries));
    if frame.magic != INVITE then s.(r := RFailed(HandshakeError.InvalidMagic))
    else if !accepts then s.(r := RFailed(Rejected), toI := s.toI + Sent(Build(cfg.c, REJECT, EMPTY), room))
    else s.(r := AwaitConfirm(values), toI := s.toI + Sent(Build(cfg.c, ACCEPT, values), room))
  }

  function OnAccept(cfg: Config, s: Joint, frame: Frame, accepts: bool, room: nat): Joint {
    if frame.magic == REJECT then s.(i := IFailed(PeerRejected))
    else if frame.magic != ACCEPT then s.(i := IFailed(HandshakeError.InvalidMagic))
    else
      match Completed(frame.entries)
      case None => s.(i := IFailed(Inconsistent), toR := s.toR + Sent(Build(cfg.c, REJECT, EMPTY), room))
      case Some(accepted) =>
        if !accepts then s.(i := IFailed(Rejected), toR := s.toR + Sent(Build(cfg.c, REJECT, EMPTY), room))
        else s.(i := AwaitDone(accepted), toR := s.toR + Sent(Build(cfg.c, CONFRM, accepted), room))
  }

  function OnConfirm(cfg: Config, s: Joint, frame: Frame, room: nat): Joint
    requires s.r.AwaitConfirm?
  {
    if frame.magic != CONFRM then
      s.(r := RFailed(HandshakeError.InvalidMagic), toI := s.toI + Sent(Build(cfg.c, REJECT, EMPTY), room))
    else if !ConfirmMatches(frame.entries, s.r.answered) then
      s.(r := RFailed(Inconsistent), toI := s.toI + Sent(Build(cfg.c, REJECT, EMPTY), room))
    else
      s.(r := ROk(ValuesToBasic(s.r.answered)), toI := s.toI + Sent(Build(cfg.c, CONFRM, EMPTY), room))
  }

  function OnDone(s: Joint, frame: Frame): Joint
    requires s.i.AwaitDone?
  {
    if frame.magic != CONFRM then s.(i := IFailed(HandshakeError.InvalidMagic))
    else if frame.entries != [None, None, None, None] then s.(i := IFailed(Inconsistent))
    else s.(i := IOk(ValuesToBasic(s.i.accepted)))
  }

  function Step(cfg: Config, s: Joint, a: Act): Joint
    requires Enabled(cfg, s, a)
  {
    match a
    case SendInvite(room) =>
      (match Propose(cfg.invite, 0, EMPTY)
       case Err(e) => s.(i := IFailed(e))
       case Ok(proposed) => s.(i := AwaitAccept, toR := s.toR + Sent(Build(cfg.c, INVITE, proposed), room)))
    case Answer(accepts, room) =>
      (match Received(cfg.c, s.toR, cfg.rMax)
       case Err(e) => s.(r := RFailed(e))
       case Ok((frame, n)) => OnInvite(cfg, s.(toR := Drop(s.toR, n)), frame, accepts, room))
    case Confirm(accepts, room) =>
      (match Received(cfg.c, s.toI, cfg.iMax)
       case Err(e) => s.(i := IFailed(e))
       case Ok((frame, n)) => OnAccept(cfg, s.(toI := Drop(s.toI, n)), frame, accepts, room))
    case Commit(room) =>
      (match Received(cfg.c, s.toR, cfg.rMax)
       case Err(e) => s.(r := RFailed(e))
       case Ok((frame, n)) => OnConfirm(cfg, s.(toR := Drop(s.toR, n)), frame, room))
    case Finish =>
      (match Received(cfg.c, s.toI, cfg.iMax)
       case Err(e) => s.(i := IFailed(e))
       case Ok((frame, n)) => OnDone(s.(toI := Drop(s.toI, n)), frame))
    case GiveUpI(why) => s.(i := IFailed(why))
    case GiveUpR(why) => s.(r := RFailed(why))
  }

  function Drop(s: Bytes, n: nat): Bytes { if n <= |s| then s[n..] else [] }

  // -------------------------------------------------------------------------
  // Agreement
  // -------------------------------------------------------------------------

  function Proposed(cfg: Config): Values {
    match Propose(cfg.invite, 0, EMPTY) case Ok(v) => v case Err(_) => EMPTY
  }

  function Agreed(cfg: Config): Values { Settle(cfg.local, Proposed(cfg)) }

  function Invitation(cfg: Config): Bytes { Build(cfg.c, INVITE, Proposed(cfg)) }
  function Acceptance(cfg: Config): Bytes { Build(cfg.c, ACCEPT, Agreed(cfg)) }
  function Confirmation(cfg: Config): Bytes { Build(cfg.c, CONFRM, Agreed(cfg)) }
  function Rejection(cfg: Config): Bytes { Build(cfg.c, REJECT, EMPTY) }
  function Done(cfg: Config): Bytes { Build(cfg.c, CONFRM, EMPTY) }

  /** What may be under way, and what the two may hold, in every reachable state: of each
      frame only a front may have been written. */
  ghost predicate Inv(cfg: Config, s: Joint) {
    match (s.i, s.r)
    case (IStart, RStart) => s.toR == [] && s.toI == []
    case (IStart, RFailed(_)) => s.toI == []
    case (AwaitAccept, RStart) => s.toR <= Invitation(cfg) && s.toI == []
    case (AwaitAccept, AwaitConfirm(v)) => v == Agreed(cfg) && s.toR == [] && s.toI <= Acceptance(cfg)
    case (AwaitAccept, RFailed(_)) => s.toI <= Rejection(cfg) || s.toI <= Acceptance(cfg)
    case (AwaitDone(a), AwaitConfirm(v)) =>
      a == v == Agreed(cfg) && s.toR <= Confirmation(cfg) && s.toI == []
    case (AwaitDone(a), ROk(o)) =>
      a == Agreed(cfg) && o == ValuesToBasic(Agreed(cfg)) && s.toR == [] && s.toI <= Done(cfg)
    case (AwaitDone(a), RFailed(_)) => a == Agreed(cfg) && s.toI <= Rejection(cfg)
    case (IOk(a), ROk(o)) => a == o == ValuesToBasic(Agreed(cfg))
    case (IFailed(_), RStart) => s.toR <= Invitation(cfg)
    case (IFailed(_), AwaitConfirm(v)) =>
      v == Agreed(cfg) && (s.toR <= Confirmation(cfg) || s.toR <= Rejection(cfg))
    case (IFailed(_), ROk(o)) => o == ValuesToBasic(Agreed(cfg))
    case (IFailed(_), RFailed(_)) => true
    case _ => false
  }

  /** A stream that holds just one built frame gives that frame and is empty after it,
      or it gives an error; never anything else. */
  lemma ReceiveBuilt(c: Checksums, magic: Magic, values: Values, max: nat)
    requires IsMagic(magic)
    ensures var f := Build(c, magic, values);
      match Received(c, f, max)
      case Ok((frame, n)) =>
        frame.magic == magic && ValuesOf(frame.entries) == values && n == |f| && Drop(f, n) == [] && NoZero(values)
      case Err(e) => max < 43 || !NoZero(values)
    ensures |Build(c, magic, values)| > 0
  {
    var f := Build(c, magic, values);
    BuiltLength(c, magic, values);
    hide Build, Parse;
    assert f + [] == f;
    RoundTrip(c, magic, values, [], 43);
    if max <= 43 { LargerLimit(c, f, max, 43); } else { LargerLimit(c, f, 43, max); }
    if Parse(c, f, max).Err? && Parse(c, f, max).error.NeedMore? { assert false; }
  }

  /** A stream that holds a front of a built frame gives nothing but an error, unless it
      holds all of it; the reader of a valid frame waits for the rest. */
  lemma ReceiveFront(c: Checksums, magic: Magic, values: Values, b: Bytes, max: nat)
    requires IsMagic(magic) && b <= Build(c, magic, values)
    ensures match Received(c, b, max)
      case Ok((frame, n)) =>
        && b == Build(c, magic, values) && frame.magic == magic && ValuesOf(frame.entries) == values
        && NoZero(values) && Drop(b, n) == []
      case Err(e) =>
        b != Build(c, magic, values) && NoZero(values) && max >= 43 ==> e == PeerClosed
  {
    var f := Build(c, magic, values);
    ReceiveBuilt(c, magic, values, max);
    BuiltLength(c, magic, values);
    hide Build, Parse;
    if |b| < |f| {
      assert b == f[..|b|] && b + f[|b|..] == f;
      StableUnderExtension(c, b, f[|b|..], max);
      if Received(c, f, max).Ok? { ProperPrefixWantsMore(c, f, max, |b|); }
    } else {
      assert b == f;
    }
  }

  lemma ReceiveNothing(c: Checksums, max: nat)
    ensures Received(c, [], max).Err?
    ensures max >= 4 ==> Received(c, [], max) == Err(PeerClosed)
  {}

  lemma Appended(b: Bytes)
    ensures [] + b == b
  {}

  lemma AnswerKeeps(cfg: Config, s: Joint, a: Act)
    requires Inv(cfg, s) && Enabled(cfg, s, a) && a.Answer?
    ensures Inv(cfg, Step(cfg, s, a))
  {
    hide Build, Received, Propose, Settle;
    ReceiveNothing(cfg.c, cfg.rMax);
    if s.toR <= Invitation(cfg) { ReceiveFront(cfg.c, INVITE, Proposed(cfg), s.toR, cfg.rMax); }
    Appended(Sent(Acceptance(cfg), a.room));
    Appended(Sent(Rejection(cfg), a.room));
  }

  lemma ConfirmKeeps(cfg: Config, s: Joint, a: Act)
    requires Inv(cfg, s) && Enabled(cfg, s, a) && a.Confirm?
    ensures Inv(cfg, Step(cfg, s, a))
  {
    SettledOptions(cfg.local, Proposed(cfg));
    hide Build, Received, Propose, Settle;
    ReceiveNothing(cfg.c, cfg.iMax);
    if s.toI <= Acceptance(cfg) { ReceiveFront(cfg.c, ACCEPT, Agreed(cfg), s.toI, cfg.iMax); }
    if s.toI <= Rejection(cfg) { ReceiveFront(cfg.c, REJECT, EMPTY, s.toI, cfg.iMax); }
    Appended(Sent(Confirmation(cfg), a.room));
    Appended(Sent(Rejection(cfg), a.room));
  }

  lemma CommitKeeps(cfg: Config, s: Joint, a: Act)
    requires Inv(cfg, s) && Enabled(cfg, s, a) && a.Commit?
    ensures Inv(cfg, Step(cfg, s, a))
  {
    SettledOptions(cfg.local, Proposed(cfg));
    hide Build, Received, Propose, Settle;
    ReceiveNothing(cfg.c, cfg.rMax);
    if s.toR <= Confirmation(cfg) { ReceiveFront(cfg.c, CONFRM, Agreed(cfg), s.toR, cfg.rMax); }
    if s.toR <= Rejection(cfg) { ReceiveFront(cfg.c, REJECT, EMPTY, s.toR, cfg.rMax); }
    Appended(Sent(Done(cfg), a.room));
    Appended(Sent(Rejection(cfg), a.room));
  }

  lemma FinishKeeps(cfg: Config, s: Joint)
    requires Inv(cfg, s) && Enabled(cfg, s, Finish)
    ensures Inv(cfg, Step(cfg, s, Finish))
  {
    hide Build, Received, Propose, Settle;
    if s.toI <= Done(cfg) { ReceiveFront(cfg.c, CONFRM, EMPTY, s.toI, cfg.iMax); }
    if s.toI <= Rejection(cfg) { ReceiveFront(cfg.c, REJECT, EMPTY, s.toI, cfg.iMax); }
  }

  lemma StepKeeps(cfg: Config, s: Joint, a: Act)
    requires Inv(cfg, s) && Enabled(cfg, s, a)
    ensures Inv(cfg, Step(cfg, s, a))
  {
    match a
    case Answer(_, _) => AnswerKeeps(cfg, s, a);
    case Confirm(_, _) => ConfirmKeeps(cfg, s, a);
    case Commit(_) => CommitKeeps(cfg, s, a);
    case Finish => FinishKeeps(cfg, s);
    case SendInvite(room) => Appended(Sent(Invitation(cfg), room));
    case _ =>
  }

  const START: Joint := Joint(IStart, RStart, [], [])

  ghost predicate Runs(cfg: Config, s: Joint, acts: seq<Act>)
    decreases |acts|
  {
    acts == [] || (Enabled(cfg, s, acts[0]) && Runs(cfg, Step(cfg, s, acts[0]), acts[1..]))
  }

  ghost function Run(cfg: Config, s: Joint, acts: seq<Act>): Joint
    requires Runs(cfg, s, acts)
    decreases |acts|
  {
    if acts == [] then s else Run(cfg, Step(cfg, s, acts[0]), acts[1..])
  }

  lemma {:induction false} RunKeeps(cfg: Config, s: Joint, acts: seq<Act>)
    requires Inv(cfg, s) && Runs(cfg, s, acts)
    ensures Inv(cfg, Run(cfg, s, acts))
    decreases |acts|
  {
    if acts != [] {
      StepKeeps(cfg, s, acts[0]);
      RunKeeps(cfg, Step(cfg, s, acts[0]), acts[1..]);
    }
  }

  /** Agreement over every joint run, whatever the limits, the deciders and the failures,
      and however little of each frame is written:
      a side that returns Ok holds the responder's own values overridden by just the
      invited ones, so two that return Ok hold the same; and an initiator that returns
      Ok has a responder that has passed the confirmation. */
  lemma Agreement(cfg: Config, acts: seq<Act>)
    requires Runs(cfg, START, acts)
    ensures var s := Run(cfg, START, acts);
      && (s.i.IOk? ==> s.i.opts == ValuesToBasic(Agreed(cfg)) && s.r.ROk?)
      && (s.r.ROk? ==> s.r.opts == ValuesToBasic(Agreed(cfg)))
  {
    RunKeeps(cfg, START, acts);
  }

  // -------------------------------------------------------------------------
  // Completion
  // -------------------------------------------------------------------------

  /** Valid inputs, and limits that take every frame. */
  ghost predicate Valid(cfg: Config) {
    && Propose(cfg.invite, 0, EMPTY).Ok? && NoZero(BasicToValues(cfg.local))
    && cfg.iMax >= 43 && cfg.rMax >= 43
  }

  predicate Willing(a: Act) {
    !a.GiveUpI? && !a.GiveUpR? && (a.Answer? ==> a.accepts) && (a.Confirm? ==> a.accepts)
  }

  /** The frame that is written in turn `k`. */
  function FrameAt(cfg: Config, k: nat): Bytes {
    if k == 0 then Invitation(cfg) else if k == 1 then Acceptance(cfg)
    else if k == 2 then Confirmation(cfg) else Done(cfg)
  }

  /** What has been written when turn `k` comes, if it was written whole. */
  function Last(cfg: Config, k: nat): Bytes {
    if 1 <= k <= 4 then FrameAt(cfg, k - 1) else []
  }

  /** The only path of two willing parties; `sent` was written of the last frame. */
  function Stage(cfg: Config, k: nat, sent: Bytes): Joint {
    var o := ValuesToBasic(Agreed(cfg));
    if k == 0 then START
    else if k == 1 then Joint(AwaitAccept, RStart, sent, [])
    else if k == 2 then Joint(AwaitAccept, AwaitConfirm(Agreed(cfg)), [], sent)
    else if k == 3 then Joint(AwaitDone(Agreed(cfg)), AwaitConfirm(Agreed(cfg)), sent, [])
    else if k == 4 then Joint(AwaitDone(Agreed(cfg)), ROk(o), [], sent)
    else Joint(IOk(o), ROk(o), [], [])
  }

  function Turn(k: nat, room: nat): Act {
    if k == 0 then SendInvite(room) else if k == 1 then Answer(true, room)
    else if k == 2 then Confirm(true, room) else if k == 3 then Commit(room) else Finish
  }

  function RoomOf(a: Act): nat {
    match a
    case SendInvite(room) => room
    case Answer(_, room) => room
    case Confirm(_, room) => room
    case Commit(room) => room
    case _ => 0
  }

  /** Whether the frame of turn `k` is written whole; the last turn writes none. */
  predicate Whole(cfg: Config, k: nat, a: Act) {
    k >= 4 || RoomOf(a) >= |FrameAt(cfg, k)|
  }

  lemma ValidValues(cfg: Config)
    requires Valid(cfg)
    ensures NoZero(Proposed(cfg)) && NoZero(Agreed(cfg))
  {
    ProposedIsInvited(cfg.invite, 0, EMPTY);
  }

  /** At each stage nobody can act but the party whose turn it is, and not that one either
      while the frame it waits for is cut short. */
  lemma OnlyTurn(cfg: Config, k: nat, sent: Bytes, a: Act)
    requires Valid(cfg) && k <= 5 && Willing(a) && sent <= Last(cfg, k)
    requires k == 5 || a != Turn(k, RoomOf(a)) || sent != Last(cfg, k)
    ensures !Enabled(cfg, Stage(cfg, k, sent), a)
  {
    ValidValues(cfg);
    hide Build, Received, Propose, Settle, NoZero, Valid;
    assert cfg.iMax >= 43 && cfg.rMax >= 43 by { Limits(cfg); }
    ReceiveNothing(cfg.c, cfg.iMax);
    ReceiveNothing(cfg.c, cfg.rMax);
    if k == 1 { ReceiveFront(cfg.c, INVITE, Proposed(cfg), sent, cfg.rMax); }
    else if k == 2 { ReceiveFront(cfg.c, ACCEPT, Agreed(cfg), sent, cfg.iMax); }
    else if k == 3 { ReceiveFront(cfg.c, CONFRM, Agreed(cfg), sent, cfg.rMax); }
    else if k == 4 {
      assert NoZero(EMPTY) by { NothingIsNoZero(); }
      ReceiveFront(cfg.c, CONFRM, EMPTY, sent, cfg.iMax);
    }
  }

  lemma Limits(cfg: Config)
    requires Valid(cfg)
    ensures cfg.iMax >= 43 && cfg.rMax >= 43
  {}

  lemma NothingIsNoZero()
    ensures NoZero(EMPTY)
  {}

  lemma TurnStep(cfg: Config, k: nat, room: nat)
    requires Valid(cfg) && k < 5
    ensures Enabled(cfg, Stage(cfg, k, Last(cfg, k)), Turn(k, room))
    ensures Step(cfg, Stage(cfg, k, Last(cfg, k)), Turn(k, room))
         == Stage(cfg, k + 1, if k < 4 then Sent(FrameAt(cfg, k), room) else [])
  {
    if k < 2 { OpeningTurn(cfg, k, room); }
    else if k == 2 { ConfirmTurn(cfg, room); }
    else if k == 3 { CommitTurn(cfg, room); }
    else { FinishTurn(cfg); }
  }

  lemma OpeningTurn(cfg: Config, k: nat, room: nat)
    requires Valid(cfg) && k < 2
    ensures Enabled(cfg, Stage(cfg, k, Last(cfg, k)), Turn(k, room))
    ensures Step(cfg, Stage(cfg, k, Last(cfg, k)), Turn(k, room)) == Stage(cfg, k + 1, Sent(FrameAt(cfg, k), room))
  {
    ValidValues(cfg);
    hide Build, Received, Propose, Settle;
    ReceiveBuilt(cfg.c, INVITE, Proposed(cfg), cfg.rMax);
    Appended(Sent(Invitation(cfg), room));
    Appended(Sent(Acceptance(cfg), room));
  }

  lemma ConfirmTurn(cfg: Config, room: nat)
    requires Valid(cfg)
    ensures Enabled(cfg, Stage(cfg, 2, Acceptance(cfg)), Confirm(true, room))
    ensures Step(cfg, Stage(cfg, 2, Acceptance(cfg)), Confirm(true, room))
         == Stage(cfg, 3, Sent(Confirmation(cfg), room))
  {
    ValidValues(cfg);
    SettledOptions(cfg.local, Proposed(cfg));
    hide Build, Received, Propose, Settle;
    ReceiveBuilt(cfg.c, ACCEPT, Agreed(cfg), cfg.iMax);
    Appended(Sent(Confirmation(cfg), room));
  }

  lemma CommitTurn(cfg: Config, room: nat)
    requires Valid(cfg)
    ensures Enabled(cfg, Stage(cfg, 3, Confirmation(cfg)), Commit(room))
    ensures Step(cfg, Stage(cfg, 3, Confirmation(cfg)), Commit(room)) == Stage(cfg, 4, Sent(Done(cfg), room))
  {
    ValidValues(cfg);
    SettledOptions(cfg.local, Proposed(cfg));
    hide Build, Received, Propose, Settle;
    ReceiveBuilt(cfg.c, CONFRM, Agreed(cfg), cfg.rMax);
    ConfirmsExactly(Received(cfg.c, Confirmation(cfg), cfg.rMax).value.0.entries, Agreed(cfg));
    Appended(Sent(Done(cfg), room));
  }

  lemma FinishTurn(cfg: Config)
    requires Valid(cfg)
    ensures Enabled(cfg, Stage(cfg, 4, Done(cfg)), Finish)
    ensures Step(cfg, Stage(cfg, 4, Done(cfg)), Finish) == Stage(cfg, 5, [])
  {
    hide Build, Received, Propose, Settle;
    ReceiveBuilt(cfg.c, CONFRM, EMPTY, cfg.iMax);
  }

  /** The initiator has not returned Ok, and no willing party can act any more. */
  ghost predicate Stuck(cfg: Config, s: Joint) {
    !s.i.IOk? && forall a :: Willing(a) ==> !Enabled(cfg, s, a)
  }

  lemma CutFrameStops(cfg: Config, k: nat, sent: Bytes)
    requires Valid(cfg) && 1 <= k <= 4 && sent <= Last(cfg, k) && sent != Last(cfg, k)
    ensures Stuck(cfg, Stage(cfg, k, sent))
  {
    forall a | Willing(a) ensures !Enabled(cfg, Stage(cfg, k, sent), a) {
      OnlyTurn(cfg, k, sent, a);
    }
  }

  lemma StuckEnds(cfg: Config, s: Joint, acts: seq<Act>)
    requires Stuck(cfg, s) && Runs(cfg, s, acts) && forall i :: 0 <= i < |acts| ==> Willing(acts[i])
    ensures acts == []
  {}

  lemma InTurn(cfg: Config, k: nat, a: Act)
    requires Valid(cfg) && k <= 5 && Willing(a) && Enabled(cfg, Stage(cfg, k, Last(cfg, k)), a)
    ensures k < 5 && a == Turn(k, RoomOf(a))
  {
    hide Enabled, Valid, Stage, Last;
    if k == 5 || a != Turn(k, RoomOf(a)) { OnlyTurn(cfg, k, Last(cfg, k), a); }
  }

  /** With valid inputs, limits that take every frame and nobody unwilling, every run goes
      through the same five steps as long as each frame is written whole: it cannot stop
      before them, and after them both sides have returned Ok with the agreed options.
      With the first frame that is cut short it is stuck for good. */
  lemma {:induction false} WillingRunsComplete(cfg: Config, k: nat, acts: seq<Act>)
    requires Valid(cfg) && k <= 5 && Runs(cfg, Stage(cfg, k, Last(cfg, k)), acts)
    requires forall i :: 0 <= i < |acts| ==> Willing(acts[i])
    ensures k + |acts| <= 5
    ensures var s, n := Run(cfg, Stage(cfg, k, Last(cfg, k)), acts), k + |acts|;
      if forall i :: 0 <= i < |acts| ==> Whole(cfg, k + i, acts[i]) then
        && s == Stage(cfg, n, Last(cfg, n))
        && (n < 5 ==> forall room :: Enabled(cfg, s, Turn(n, room)))
        && (n == 5 ==> s.i == IOk(ValuesToBasic(Agreed(cfg))) && s.r == ROk(ValuesToBasic(Agreed(cfg))))
      else Stuck(cfg, s)
    decreases |acts|
  {
    hide Enabled, Step, Valid, FrameAt, Stuck;
    if acts == [] {
      if k < 5 { forall room { TurnStep(cfg, k, room); } }
    } else {
      var a := acts[0];
      assert Willing(a);
      InTurn(cfg, k, a);
      TurnStep(cfg, k, RoomOf(a));
      var sent := if k < 4 then Sent(FrameAt(cfg, k), RoomOf(a)) else [];
      assert Runs(cfg, Stage(cfg, k + 1, sent), acts[1..]);
      if Whole(cfg, k, a) {
        assert sent == Last(cfg, k + 1);
        WillingRunsComplete(cfg, k + 1, acts[1..]);
      } else {
        CutFrameStops(cfg, k + 1, sent);
        StuckEnds(cfg, Stage(cfg, k + 1, sent), acts[1..]);
      }
    }
  }
}
