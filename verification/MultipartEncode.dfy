/** The multipart encoder. Its surroundings, what arrives when, which reads are refused,
    how large the segments are and when the token is cancelled, are schedules that it is
    given: they are arbitrary, and they fix the run. */
module MultipartEncode {
  import opened Common
  import opened FrameCodec
  import opened Multipart

  datatype EncodeError = FromSource | Target | Invalid

  datatype Waited = Ready | Refused(cause: Cause)

  /** What happens at one call to the source: bytes that arrive, its producer or its own
      read end being closed, a refusal, the size of the segment. */
  datatype Answer = Answer(arrives: nat, closes: bool, shuts: bool, refuse: Option<Cause>, size: nat)

  predicate NoShuts(script: seq<Answer>) {
    forall i :: 0 <= i < |script| ==> !script[i].shuts
  }

  /** The schedule holds a refusal for this cause. */
  ghost predicate Refuses(script: seq<Answer>, cause: Cause) {
    exists i :: 0 <= i < |script| && script[i].refuse == Some(cause)
  }

  /** The source: bytes that arrive in any portions, and then it closes. `closed` is its
      producer, `shut` its read end. Behind its schedule everything arrives. */
  class Source {
    const data: Bytes
    const tags: Tags
    const script: seq<Answer>
    var next: nat
    var taken: nat
    var arrived: nat
    var closed: bool
    var shut: bool

    constructor (data: Bytes, tags: Tags, script: seq<Answer>)
      ensures Valid() && Untouched() && this.data == data && this.tags == tags && this.script == script
    {
      this.data, this.tags, this.script := data, tags, script;
      next, taken, arrived, closed, shut := 0, 0, 0, false, false;
    }

    ghost predicate Valid()
      reads this
    {
      && taken <= arrived <= |data| && (closed ==> arrived == |data|)
      && (shut ==> !NoShuts(script))
    }

    ghost predicate Untouched()
      reads this
    {
      next == taken == arrived == 0 && !closed && !shut
    }

    function Now(): Answer
      reads this
    {
      if next < |script| then script[next] else Answer(|data|, true, false, None, |data|)
    }

    method Arrive() returns (a: Answer)
      requires Valid()
      modifies this`next, this`arrived, this`closed, this`shut
      ensures Valid() && a == old(Now()) && next == old(next) + 1
      ensures arrived == if closed then |data| else Min(old(arrived) + a.arrives, |data|)
      ensures closed == (old(closed) || a.closes) && shut == (old(shut) || a.shuts)
    {
      a := Now();
      if a.shuts { assert exists i :: 0 <= i < |script| && script[i].shuts; }
      next, closed, shut := next + 1, closed || a.closes, shut || a.shuts;
      arrived := if closed then |data| else Min(arrived + a.arrives, |data|);
    }

    method DataSize() returns (n: nat)
      requires Valid()
      modifies this`next, this`arrived, this`closed, this`shut
      ensures Valid() && n == arrived - taken && arrived >= old(arrived)
      ensures Quiet(old(Now())) ==> n == old(arrived) - taken && closed == old(closed) && shut == old(shut)
      ensures next == old(next) + 1
    {
      var _ := Arrive();
      n := arrived - taken;
    }

    /** A closed read end counts as drained, whatever there is and whatever comes. */
    method IsDrainedClosing() returns (b: bool)
      requires Valid()
      modifies this`next, this`arrived, this`closed, this`shut
      ensures Valid() && b == (shut || (closed && taken == arrived)) && arrived >= old(arrived)
      ensures Quiet(old(Now())) ==> arrived == old(arrived) && closed == old(closed) && shut == old(shut)
      ensures old(Now()).shuts ==> shut
      ensures next == old(next) + 1
    {
      var _ := Arrive();
      b := shut || (closed && taken == arrived);
    }

    /** Waits for a byte, or is refused. */
    method Wait() returns (w: Waited)
      requires Valid()
      modifies this`next, this`arrived, this`closed, this`shut
      ensures Valid() && (w.Ready? ==> arrived > taken)
      ensures w == Refused(Ended) ==> taken == |data|
      ensures w == Refused(ShutOff) ==> shut
      ensures w == Refused(ByToken) || w == Refused(Fault) ==> Refuses(script, w.cause)
      ensures Quiet(old(Now())) && old(arrived) == taken && (old(Now()).refuse == Some(ByToken) || old(Now()).refuse == Some(Fault)) ==>
        w == Refused(old(Now()).refuse.value)
    {
      var a := Arrive();
      if arrived > taken { return Ready; }
      if a.refuse == Some(ByToken) || a.refuse == Some(Fault) { return Refused(a.refuse.value); }
      if taken == |data| { return Refused(Ended); }
      if shut { return Refused(ShutOff); }
      arrived := taken + 1;
      return Ready;
    }

    /** A read segment of at most `max` bytes, moved on whole. What is there is lent even
        when an end is closed. */
    method Read(max: nat) returns (r: Result<Bytes, Cause>)
      requires Valid() && max > 0 && arrived > taken
      modifies this
      ensures Valid() && arrived >= old(arrived)
      ensures r.Ok? ==> 1 <= |r.value| <= max && taken == old(taken) + |r.value| && r.value == data[old(taken)..taken]
      ensures r.Err? ==> taken == old(taken) && (r.error.ByToken? || r.error.Fault?) && Refuses(script, r.error)
    {
      var a := Arrive();
      if a.refuse == Some(ByToken) || a.refuse == Some(Fault) { return Err(a.refuse.value); }
      var top := Min(max, arrived - taken);
      var n := if a.size == 0 then 1 else Min(a.size, top);
      r := Ok(data[taken..taken + n]);
      taken := taken + n;
    }

    /** The next round finds nothing, and either its wait is refused for a cause that is
        not an end or the read end is closed by the time it asks. */
    ghost predicate Decides(stop: Stop)
      reads this
    {
      && taken == arrived && !closed && next + 2 < |script| && Quiet(script[next])
      && match stop
         case WaitRefused(cause) =>
           && (cause.ByToken? || cause.Fault?) && !shut
           && Quiet(script[next + 1]) && Quiet(script[next + 2]) && script[next + 2].refuse == Some(cause)
         case Finished => script[next + 1].arrives == 0 && script[next + 1].shuts
         case _ => false
    }
  }

  /** A call at which nothing happens but perhaps a refusal. */
  predicate Quiet(a: Answer) { a.arrives == 0 && !a.closes && !a.shuts }

  /** The target: write segments of any size, or none. */
  class Sink {
    const rooms: seq<Option<nat>>
    var next: nat
    var written: Bytes

    constructor (rooms: seq<Option<nat>>)
      ensures this.rooms == rooms && next == 0 && written == []
    {
      this.rooms, next, written := rooms, 0, [];
    }

    /** Whether the next segment is lent. */
    predicate HasRoom()
      reads this
    {
      next >= |rooms| || rooms[next].Some?
    }

    /** Room for at least `min` bytes, or an error. */
    method Lend(min: nat) returns (room: Option<nat>)
      modifies this`next
      ensures room.Some? == old(HasRoom()) && (if room.Some? then room.value >= min else None in rooms)
    {
      room := if next >= |rooms| then Some(min) else rooms[next];
      if room.Some? && room.value < min { room := Some(min); }
      next := next + 1;
    }

    method Put(part: Bytes)
      modifies this`written
      ensures written == old(written) + part
    {
      written := written + part;
    }
  }

  /** How a chunk breaks off: `Invalid` exactly when a read was refused, for another
      reason than the end of the source, under a tag that reads as its end. */
  ghost predicate BrokenOff(tags: Tags, err: Option<EncodeError>, refused: Option<Cause>) {
    && (refused.Some? ==> refused.value.ByToken? || refused.value.Fault?)
    && (err == Some(EncodeError.Invalid) <==> refused.Some? && ReadsAsEof(tags.Of(refused.value)))
    && (err == Some(FromSource) <==> refused.Some? && !ReadsAsEof(tags.Of(refused.value)))
  }

  /** A chunk breaks off only for a refusal of the source or a target segment that is not
      to be had. */
  ghost predicate BreakIsDue(source: Source, target: Sink, err: Option<EncodeError>, refused: Option<Cause>) {
    && (refused.Some? ==> Refuses(source.script, refused.value))
    && (err.Some? && refused.None? ==> None in target.rooms)
  }

  /** Moves the `size` payload bytes of a chunk through any number of target segments. */
  method SendPayload(source: Source, target: Sink, size: nat)
    returns (cc: nat, err: Option<EncodeError>, ghost part: Bytes, ghost refused: Option<Cause>)
    requires source.Valid() && size <= source.arrived - source.taken
    modifies source, target
    ensures source.Valid() && cc == |part| <= size && (err.None? <==> cc == size)
    ensures source.taken == old(source.taken) + cc && part == source.data[old(source.taken)..source.taken]
    ensures target.written == old(target.written) + part
    ensures BrokenOff(source.tags, err, refused) && BreakIsDue(source, target, err, refused)
  {
    cc, err, part, refused := 0, None, [], None;
    while cc < size && err.None?
      invariant source.Valid() && cc == |part| <= size
      invariant BrokenOff(source.tags, err, refused) && BreakIsDue(source, target, err, refused)
      invariant err.Some? ==> cc < size
      invariant source.taken == old(source.taken) + cc && part == source.data[old(source.taken)..source.taken]
      invariant target.written == old(target.written) + part
      invariant size - cc <= source.arrived - source.taken
      decreases size - cc, err.None?
    {
      var room := target.Lend(1);
      if room.None? { return cc, Some(Target), part, None; }
      var n;
      ghost var more;
      n, err, more, refused := FillSegment(source, target, room.value, size - cc);
      cc, part := cc + n, part + more;
    }
  }

  /** Fills one target segment with at most `need` bytes, source segment by segment. */
  method FillSegment(source: Source, target: Sink, room: nat, need: nat)
    returns (n: nat, err: Option<EncodeError>, ghost part: Bytes, ghost refused: Option<Cause>)
    requires source.Valid() && 0 < room && 0 < need <= source.arrived - source.taken
    modifies source, target
    ensures source.Valid() && n == |part| <= need && (if err.None? then n > 0 else n < need)
    ensures source.taken == old(source.taken) + n && part == source.data[old(source.taken)..source.taken]
    ensures target.written == old(target.written) + part
    ensures need - n <= source.arrived - source.taken && err != Some(Target)
    ensures BrokenOff(source.tags, err, refused) && BreakIsDue(source, target, err, refused)
  {
    n, err, part, refused := 0, None, [], None;
    var left := room;
    while left > 0 && n < need
      invariant source.Valid() && n == |part| <= need && left + n == room
      invariant source.taken == old(source.taken) + n && part == source.data[old(source.taken)..source.taken]
      invariant target.written == old(target.written) + part
      invariant need - n <= source.arrived - source.taken
      decreases left
    {
      var r := source.Read(Min(left, need - n));
      if r.Err? {
        // Not its end: the whole chunk was there when its length was announced.
        var error := if ReadsAsEof(source.tags.Of(r.error)) then EncodeError.Invalid else FromSource;
        return n, Some(error), part, Some(r.error);
      }
      target.Put(r.value);
      part := part + r.value;
      n, left := n + |r.value|, left - |r.value|;
    }
  }

  /** What the encoder may have written of a chunk when it stopped inside it: the length
      prefix of some chunk and `part`, less than that of its payload. */
  ghost predicate Partial(l: PrefixLen, tail: Bytes, part: Bytes) {
    (tail == [] && part == []) ||
    exists n: nat :: tail == Opened(l, n, part) && |part| < n < PrefixMax(l)
  }

  function Opened(l: PrefixLen, n: nat, part: Bytes): Bytes { BigEndian(l, n) + part }

  lemma {:induction false} AddChunk(l: PrefixLen, chunks: Chunks, chunk: Bytes)
    requires Fit(l, chunks) && 1 <= |chunk| <= PrefixMax(l) - 1
    ensures Fit(l, chunks + [chunk]) && Join(chunks + [chunk]) == Join(chunks) + chunk
    ensures Wire(l, chunks + [chunk]) == Wire(l, chunks) + Opened(l, |chunk|, chunk)
  {
    hide Wire, Join, BigEndian;
    NoChunks(l);
    if chunks == [] {
      ConsChunk(l, chunk, []);
      assert chunks + [chunk] == [chunk] + [];
    } else {
      var tail := chunks[1..];
      AddChunk(l, tail, chunk);
      ConsChunk(l, chunks[0], tail);
      ConsChunk(l, chunks[0], tail + [chunk]);
      assert chunks == [chunks[0]] + tail && chunks + [chunk] == [chunks[0]] + (tail + [chunk]);
    }
  }

  /** Why the encoder stopped: it saw its token cancelled, the source was drained, a wait
      was refused, a chunk broke off (with what its read was refused for, if it was), or
      the terminator found no room. */
  datatype Stop = TokenSeen | Finished | WaitRefused(cause: Cause) | ChunkBroke(refused: Option<Cause>) | NoRoom

  /** When the terminator is written: a source that counts as drained, or a wait refused
      under a tag that reads as an end. */
  predicate Terminates(tags: Tags, stop: Stop) {
    stop.Finished? || (stop.WaitRefused? && ReadsAsEof(tags.Of(stop.cause)))
  }

  /** The answer that goes with it. A caller cannot tell a cancellation from an end. */
  ghost predicate Answers(tags: Tags, stop: Stop, err: Option<EncodeError>) {
    match stop
    case TokenSeen => err == None
    case Finished => err == None
    case WaitRefused(_) => err == if Terminates(tags, stop) then None else Some(FromSource)
    case ChunkBroke(refused) => err.Some? && BrokenOff(tags, err, refused)
    case NoRoom => err == Some(Target)
  }

  /** What is known of the source when the encoder stops at its end. */
  ghost predicate StoppedAt(source: Source, stop: Stop, c: nat)
    reads source
  {
    && (stop.Finished? ==> c == |source.data| || source.shut)
    && (stop == WaitRefused(Ended) ==> c == |source.data|)
    && (stop == WaitRefused(ShutOff) ==> source.shut)
  }

  /** It stops before the end of its source only for what its surroundings did: a token
      that was cancelled, a refusal, a target segment that was not to be had. */
  ghost predicate StopIsDue(source: Source, target: Sink, tokens: seq<bool>, stop: Stop) {
    match stop
    case TokenSeen => true in tokens
    case WaitRefused(cause) => cause.ByToken? || cause.Fault? ==> Refuses(source.script, cause)
    case ChunkBroke(None) => None in target.rooms
    case ChunkBroke(Some(cause)) => Refuses(source.script, cause)
    case NoRoom => None in target.rooms
    case Finished => true
  }

  /** A first round, from a fresh source, that decides everything: nothing is there and
      the wait is refused for `stop.cause`, or nothing is there and the read end closes. */
  ghost predicate DecidesAtOnce(source: Source, target: Sink, tokens: seq<bool>, stop: Stop)
    reads source, target
  {
    && source.Decides(stop) && Terminates(source.tags, stop)
    && target.HasRoom() && (tokens == [] || !tokens[0])
  }

  /** `multipart_send_async_`: for every arrival timing, every refusal and every size of
      source and target segments, what has been written is the wire form of the `c`
      bytes taken from the source. The terminator follows it exactly when `Terminates`
      says so; then decoding gives just those bytes and an end of stream, and without it
      no end of stream. Over a source that tells its end and whose read end stays open,
      an end of stream means that the source was taken whole. */
  method Send(l: PrefixLen, source: Source, target: Sink, tokens: seq<bool>)
    returns (c: nat, err: Option<EncodeError>, ghost stop: Stop, ghost chunks: Chunks, ghost part: Bytes)
    requires source.Valid() && source.Untouched() && target.written == []
    modifies source, target
    ensures source.Valid() && Fit(l, chunks) && c == source.taken && Join(chunks) + part == source.data[..c]
    ensures Answers(source.tags, stop, err) && StoppedAt(source, stop, c) && StopIsDue(source, target, tokens, stop)
    ensures Terminates(source.tags, stop) ==>
      && part == [] && target.written == Wire(l, chunks) + End(l)
      && forall rest: Bytes :: Decode(l, target.written + rest) == Decoded(source.data[..c], Eof(rest))
    ensures !Terminates(source.tags, stop) ==>
      && Wire(l, chunks) <= target.written && Partial(l, target.written[|Wire(l, chunks)|..], part)
      && Decode(l, target.written) == Decoded(source.data[..c], Cut)
    ensures TellsEnd(source.tags) && NoShuts(source.script) && Decode(l, target.written).ending.Eof? ==>
      c == |source.data|
    ensures forall first :: old(DecidesAtOnce(source, target, tokens, first)) ==>
      stop == first && err == None && c == 0 && target.written == End(l)
  {
    hide Decode, Wire, Join, Partial, BigEndian, Fit;
    var done: bool;
    c, err, stop, chunks, part, done := SendRounds(l, source, target, tokens);
    if done {
      forall rest: Bytes ensures Decode(l, target.written + rest) == Decoded(source.data[..c], Eof(rest)) {
        RoundTrip(l, chunks, rest);
      }
      assert target.written + [] == target.written;
    } else {
      ghost var tail := target.written[|Wire(l, chunks)|..];
      assert target.written == Wire(l, chunks) + tail;
      PartialIsCut(l, chunks, tail, part);
    }
  }

  /** The rounds of the loop. `tokens` says at which of them the token is seen. */
  method SendRounds(l: PrefixLen, source: Source, target: Sink, tokens: seq<bool>)
    returns (c: nat, err: Option<EncodeError>, ghost stop: Stop, ghost chunks: Chunks, ghost part: Bytes, done: bool)
    requires source.Valid() && source.Untouched() && target.written == []
    modifies source, target
    ensures source.Valid() && Fit(l, chunks) && c == source.taken && Join(chunks) + part == source.data[..c]
    ensures Answers(source.tags, stop, err) && StoppedAt(source, stop, c) && done == Terminates(source.tags, stop)
    ensures StopIsDue(source, target, tokens, stop)
    ensures done ==> part == [] && target.written == Wire(l, chunks) + End(l)
    ensures !done ==> Wire(l, chunks) <= target.written && Partial(l, target.written[|Wire(l, chunks)|..], part)
    ensures forall first :: old(DecidesAtOnce(source, target, tokens, first)) ==>
      stop == first && err == None && c == 0 && target.written == End(l)
  {
    hide Decode, Wire, Join, Partial, BigEndian, Fit;
    c, err, stop, chunks, part, done := 0, None, TokenSeen, [], [], false;
    NothingYet(l);
    ghost var decided := exists first :: DecidesAtOnce(source, target, tokens, first);
    ghost var first: Stop := if decided then var f :| DecidesAtOnce(source, target, tokens, f); f else NoRoom;
    OneDecision(source, target, tokens);
    var i := 0;
    while !done
      invariant source.Valid() && Fit(l, chunks) && c == source.taken && part == [] && err.None?
      invariant Join(chunks) == source.data[..c] && Partial(l, [], [])
      invariant target.written == Wire(l, chunks) + if done then End(l) else []
      invariant if done then Terminates(source.tags, stop) else stop == TokenSeen
      invariant StoppedAt(source, stop, c) && (done ==> StopIsDue(source, target, tokens, stop))
      invariant i == 0 ==> !done && chunks == [] && (decided ==> DecidesAtOnce(source, target, tokens, first))
      invariant decided && i > 0 ==> done && stop == first && chunks == []
      decreases !done, |source.data| - source.taken, source.arrived == source.taken
    {
      if i < |tokens| && tokens[i] { return; }
      i := i + 1;
      var next, avail;
      next, avail, stop := Poll(source);
      match next {
        case Again =>
        case Fail => err := Some(FromSource); return;
        case Terminate =>
          var room := target.Lend(l);
          if room.None? { err, stop := Some(Target), NoRoom; return; }
          target.Put(End(l));
          done := true;
        case Chunk =>
          ghost var refused;
          c, err, chunks, part, refused := SendChunk(l, source, target, avail, c, chunks);
          if err.Some? { stop := ChunkBroke(refused); return; }
      }
    }
  }

  datatype Next = Chunk | Again | Terminate | Fail

  /** What a round finds before it writes: bytes, a wait that brought some, an end, or an
      error. */
  method Poll(source: Source) returns (next: Next, avail: nat, ghost stop: Stop)
    requires source.Valid()
    modifies source`next, source`arrived, source`closed, source`shut
    ensures source.Valid()
    ensures next.Chunk? ==> 0 < avail <= source.arrived - source.taken
    ensures next.Again? ==> source.arrived > source.taken == old(source.arrived)
    ensures next.Chunk? || next.Again? <==> stop == TokenSeen
    ensures next.Terminate? <==> Terminates(source.tags, stop)
    ensures stop.Finished? || stop.WaitRefused? || stop == TokenSeen
    ensures StoppedAt(source, stop, source.taken)
    ensures stop.WaitRefused? && (stop.cause.ByToken? || stop.cause.Fault?) ==> Refuses(source.script, stop.cause)
    ensures forall first :: old(source.Decides(first)) ==> stop == first
  {
    stop := TokenSeen;
    avail := source.DataSize();
    if avail > 0 { return Chunk, avail, stop; }
    var drained := source.IsDrainedClosing();
    if drained { return Terminate, 0, Finished; }
    var w := source.Wait();
    if w.Ready? { return Again, 0, TokenSeen; }
    next := if ReadsAsEof(source.tags.Of(w.cause)) then Terminate else Fail;
    stop := WaitRefused(w.cause);
  }

  lemma OneDecision(source: Source, target: Sink, tokens: seq<bool>)
    ensures forall f, g :: DecidesAtOnce(source, target, tokens, f) && DecidesAtOnce(source, target, tokens, g) ==> f == g
  {}

  lemma NothingYet(l: PrefixLen)
    ensures Fit(l, []) && Join([]) == [] && Wire(l, []) == [] && Partial(l, [], [])
  {}

  /** What an encoder leaves that did not terminate is not terminated: decoding it finds
      no end of stream. */
  lemma {:induction false} PartialIsCut(l: PrefixLen, chunks: Chunks, tail: Bytes, part: Bytes)
    requires Fit(l, chunks) && Partial(l, tail, part)
    ensures Decode(l, Wire(l, chunks) + tail) == Decoded(Join(chunks) + part, Cut)
  {
    hide Decode, Wire, Join, BigEndian, Partial;
    NoChunks(l);
    if chunks == [] {
      TailIsCut(l, tail, part);
      assert [] + tail == tail && [] + part == part;
    } else {
      var head, more := chunks[0], chunks[1..];
      PartialIsCut(l, more, tail, part);
      ConsChunk(l, head, more);
      assert chunks == [head] + more;
      OneChunk(l, head, Wire(l, more) + tail);
      Triple(BigEndian(l, |head|) + head, Wire(l, more), tail);
      Triple(head, Join(more), part);
    }
  }

  lemma TailIsCut(l: PrefixLen, tail: Bytes, part: Bytes)
    requires Partial(l, tail, part)
    ensures Decode(l, tail) == Decoded(part, Cut)
  {
    if tail != [] {
      var n: nat :| tail == Opened(l, n, part) && |part| < n < PrefixMax(l);
      PrefixMaxIs(l);
      BigEndianRoundTrip(l, n);
      hide BigEndian, FromBigEndian, Pow256, PrefixMax;
      assert tail[..l] == BigEndian(l, n) && tail[l..] == part;
    } else {
      PartOfNothing(l, part);
    }
  }

  lemma PartOfNothing(l: PrefixLen, part: Bytes)
    requires Partial(l, [], part)
    ensures part == []
  {}

  /** Any tag that takes a cancellation or a fault for an end fails: over such a source,
      whatever it holds, the encoder may write the terminator before anything else and
      answer without an error, and the other side sees a complete, empty stream. */
  method DishonestRun(l: PrefixLen, data: Bytes, tags: Tags, cause: Cause)
    returns (written: Bytes, c: nat, err: Option<EncodeError>)
    requires data != [] && (cause.ByToken? || cause.Fault?) && ReadsAsEof(tags.Of(cause))
    ensures written == End(l) && err == None && c == 0 < |data|
    ensures Decode(l, written) == Decoded([], Eof([]))
  {
    var nothing := Answer(0, false, false, None, 1);
    var source := new Source(data, tags, [nothing, nothing, Answer(0, false, false, Some(cause), 1)]);
    var sink := new Sink([]);
    assert DecidesAtOnce(source, sink, [], WaitRefused(cause));
    ghost var stop, chunks, part;
    c, err, stop, chunks, part := Send(l, source, sink, []);
    written := sink.written;
    assert written + [] == written && source.data[..0] == [];
  }

  /** The circular buffer is such a source: nothing has arrived, the wait is cancelled. */
  method CancelledWaitLooksFinished(l: PrefixLen, data: Bytes) returns (written: Bytes, c: nat, err: Option<EncodeError>)
    requires data != []
    ensures written == End(l) && err == None && c == 0 < |data|
    ensures Decode(l, written) == Decoded([], Eof([]))
  {
    written, c, err := DishonestRun(l, data, RING_TAGS, ByToken);
  }

  /** So fails any source, whatever its tags, whose read end is closed early. */
  method ShutSourceLooksFinished(l: PrefixLen, data: Bytes, tags: Tags)
    returns (written: Bytes, c: nat, err: Option<EncodeError>)
    requires data != []
    ensures written == End(l) && err == None && c == 0 < |data|
    ensures Decode(l, written) == Decoded([], Eof([]))
  {
    var source := new Source(data, tags,
      [Answer(0, false, false, None, 1), Answer(0, false, true, None, 1), Answer(0, false, false, None, 1)]);
    var sink := new Sink([]);
    assert DecidesAtOnce(source, sink, [], Finished);
    ghost var stop, chunks, part;
    c, err, stop, chunks, part := Send(l, source, sink, []);
    written := sink.written;
    assert written + [] == written && source.data[..0] == [];
  }

  /** Nothing disturbs the encoder: no token, no refusal, no closed read end, a target that
      always has room. */
  ghost predicate Undisturbed(script: seq<Answer>, rooms: seq<Option<nat>>, tokens: seq<bool>) {
    && true !in tokens && None !in rooms && NoShuts(script)
    && !Refuses(script, ByToken) && !Refuses(script, Fault)
  }

  /** Undisturbed, and over a source that tags its end `Closing` or `Drained`, the encoder
      sends everything and ends the stream, whatever arrives when and however large the
      segments are. */
  method SendUndisturbed(l: PrefixLen, data: Bytes, tags: Tags, script: seq<Answer>, rooms: seq<Option<nat>>, tokens: seq<bool>)
    returns (written: Bytes, err: Option<EncodeError>)
    requires Undisturbed(script, rooms, tokens) && (tags.ended == Tag.Closing || tags.ended == Tag.Drained)
    ensures err == None && forall rest: Bytes :: Decode(l, written + rest) == Decoded(data, Eof(rest))
  {
    hide Decode, Wire, Join, Partial, BigEndian, Fit;
    var source := new Source(data, tags, script);
    var sink := new Sink(rooms);
    var c;
    ghost var stop, chunks, part;
    c, err, stop, chunks, part := Send(l, source, sink, tokens);
    written := sink.written;
    assert data[..|data|] == data;
  }

  /** One chunk of what is there, as much as a prefix can announce: its length, then its
      bytes. */
  method SendChunk(l: PrefixLen, source: Source, target: Sink, avail: nat, c0: nat, ghost chunks0: Chunks)
    returns (c: nat, err: Option<EncodeError>, ghost chunks: Chunks, ghost part: Bytes, ghost refused: Option<Cause>)
    requires source.Valid() && 0 < avail <= source.arrived - source.taken && c0 == source.taken
    requires Fit(l, chunks0) && Join(chunks0) == source.data[..c0] && target.written == Wire(l, chunks0)
    modifies source, target
    ensures source.Valid() && Fit(l, chunks) && c == source.taken && Join(chunks) + part == source.data[..c]
    ensures err.None? ==> c > c0 && part == [] && target.written == Wire(l, chunks)
    ensures err.None? ==> c - c0 == Min(avail, PrefixMax(l) - 1)
    ensures err.Some? ==>
      Wire(l, chunks) <= target.written && Partial(l, target.written[|Wire(l, chunks)|..], part)
    ensures BrokenOff(source.tags, err, refused) && BreakIsDue(source, target, err, refused)
  {
    hide Wire, Join, BigEndian, Fit;
    c, err, chunks, part, refused := c0, None, chunks0, [], None;
    var size := if avail < PrefixMax(l) - 1 then avail else PrefixMax(l) - 1;
    var room := target.Lend(l);
    if room.None? { err := Some(Target); return; }
    target.Put(BigEndian(l, size));
    var cc;
    cc, err, part, refused := SendPayload(source, target, size);
    c := c0 + cc;
    assert target.written == Wire(l, chunks) + Opened(l, size, part);
    assert source.data[..c0] + part == source.data[..c];
    if err.None? {
      AddChunk(l, chunks, part);
      chunks, part := chunks + [part], [];
    } else {
      assert target.written[|Wire(l, chunks)|..] == Opened(l, size, part);
    }
  }
}
