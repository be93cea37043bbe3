/** The multipart decoder over a raw stream. Refusals, segment sizes and tokens are
    schedules that are given: they are arbitrary, and they fix the run. */
module MultipartDecode {
  import opened Common
  import opened FrameCodec
  import opened Multipart
  import opened MultipartEncode

  datatype RecvError = SourceError | Malformed | AtEof | Cancelled

  datatype RawRead = RawSegm(n: nat) | RawRefused(cause: Cause)

  /** The raw stream under the decoder: read segments of any size a demand allows, and
      refusals, as its schedule has them. `shut` is its read end. */
  class RawSource {
    const stream: Bytes
    const tags: Tags
    const script: seq<Answer>
    var next: nat
    var pos: nat
    var shut: bool

    constructor (stream: Bytes, tags: Tags, script: seq<Answer>)
      ensures Valid() && this.stream == stream && this.tags == tags && this.script == script
      ensures pos == 0 && next == 0 && !shut
    {
      this.stream, this.tags, this.script, next, pos, shut := stream, tags, script, 0, 0, false;
    }

    ghost predicate Valid()
      reads this
    {
      pos <= |stream| && (shut ==> !NoShuts(script))
    }

    function Rest(): Bytes
      requires Valid()
      reads this
    {
      stream[pos..]
    }

    function Now(): Answer
      reads this
    {
      if next < |script| then script[next] else Answer(0, false, false, None, |stream|)
    }

    /** What a read is answered: a segment of `n` bytes from the position on, within the
        demand, below its lower bound only when the stream ends there or the read end is
        closed; a refusal for its end only when nothing is left. */
    function Offer(min: nat, max: Option<nat>): (r: RawRead)
      requires Valid() && (max.Some? ==> 1 <= max.value && min <= max.value)
      reads this
      ensures r.RawSegm? ==> 0 < r.n <= |Rest()| && (max.Some? ==> r.n <= max.value)
      ensures r.RawSegm? && r.n < min ==> r.n == |Rest()| || shut || Now().shuts
      ensures r == RawRefused(Ended) ==> Rest() == []
      ensures r == RawRefused(ShutOff) ==> shut || Now().shuts
      ensures r == RawRefused(ByToken) || r == RawRefused(Fault) ==> Refuses(script, r.cause)
    {
      var a, closed := Now(), shut || Now().shuts;
      if a.refuse == Some(ByToken) || a.refuse == Some(Fault) then RawRefused(a.refuse.value)
      else if pos == |stream| then RawRefused(Ended)
      else if closed && a.refuse == Some(ShutOff) then RawRefused(ShutOff)
      else
        var top := if max.Some? then Min(max.value, |stream| - pos) else |stream| - pos;
        var low := if closed || min == 0 then 1 else Min(min, top);
        RawSegm(if a.size < low then low else Min(a.size, top))
    }

    method Lend(min: nat, max: Option<nat>) returns (r: RawRead)
      requires Valid() && (max.Some? ==> 1 <= max.value && min <= max.value)
      modifies this`next, this`shut
      ensures Valid() && r == old(Offer(min, max)) && shut == (old(shut) || old(Now().shuts))
    {
      r := Offer(min, max);
      if Now().shuts { assert script[next].shuts; }
      shut, next := shut || Now().shuts, next + 1;
    }

    method Take(n: nat)
      requires Valid() && n <= |Rest()|
      modifies this`pos
      ensures Valid() && pos == old(pos) + n
    {
      pos := pos + n;
    }
  }

  /** A live payload segment: what it held at first and what is left in it. */
  class RecvSegm {
    const source: RawSource
    const initial: nat
    var left: nat

    constructor (source: RawSource, n: nat)
      ensures this.source == source && initial == left == n
    {
      this.source, initial, left := source, n, n;
    }

    /** The caller takes the next `k` bytes; the source moves on when the segment drops. */
    method Take(k: nat) returns (bytes: Bytes)
      requires source.Valid() && k <= left <= initial <= |source.Rest()|
      modifies this
      ensures left == old(left) - k && bytes == source.Rest()[initial - old(left)..initial - left]
    {
      var at := initial - left;
      bytes := source.Rest()[at..at + k];
      left := left - k;
    }
  }

  /** How a read of the decoder goes: served, the token was seen first, the zero prefix,
      a prefix cut short by the end of the source, a prefix torn by a closed read end
      though more follows, or a refusal. */
  datatype Why = Served | TokenFirst | ZeroPrefix | Short | Torn | Turned(cause: Cause)

  function ErrorOf(tags: Tags, why: Why): Option<RecvError> {
    match why
    case Served => None
    case TokenFirst => Some(RecvError.Cancelled)
    case ZeroPrefix => Some(AtEof)
    case Turned(cause) => Some(Refusal(tags.Of(cause)))
    case _ => Some(Malformed)
  }

  /** The error for a refused read: `is_read_eof_` first, then `decode_source_err_`. */
  function Refusal(tag: Tag): RecvError {
    if ReadsAsEof(tag) then Malformed else if tag.Cancelled? then RecvError.Cancelled else SourceError
  }

  /** The decoder. `delivered` logs the payload its callers consumed; `start` and
      `length` say where the current chunk's payload is. `torn` says that a part of a
      prefix was lost: then nothing more is known of what it delivers. */
  class MultipartRecv {
    const l: PrefixLen
    const source: RawSource
    var payloadLeft: nat
    var eof: bool
    ghost var delivered: Bytes
    ghost var start: nat
    ghost var length: nat
    ghost var torn: bool

    constructor (l: PrefixLen, source: RawSource)
      requires source.Valid() && source.pos == 0
      ensures Valid() && this.l == l && this.source == source && delivered == [] && payloadLeft == 0 && !eof && !torn
    {
      this.l, this.source, payloadLeft, eof, delivered, start, length, torn := l, source, 0, false, [], 0, 0, false;
      new;
      assert source.Rest() == source.stream;
    }

    ghost predicate Valid()
      reads this, source
    {
      source.Valid() && (torn ==> !NoShuts(source.script)) && (!torn ==> Intact())
    }

    /** What has been delivered and what is still to come are the payload of the stream. */
    ghost predicate Intact()
      requires source.Valid()
      reads this, source
    {
      InChunk() && Decode(l, source.stream) == Sum(delivered, Ahead())
    }

    /** The source stands just as far into the current payload as has been consumed. */
    ghost predicate InChunk()
      reads this, source
    {
      payloadLeft > 0 ==>
        && source.Valid() && l <= start && payloadLeft <= length && source.pos == start + (length - payloadLeft)
        && source.pos <= |source.stream| && FromBigEndian(source.stream[start - l..start]) == length
    }

    /** What is still to come. */
    ghost function Ahead(): Decoded
      requires source.Valid()
      reads this, source
    {
      if eof then Decoded([], Eof(source.Rest())) else Remaining(l, payloadLeft, source.Rest())
    }

    /** The whole payload has been delivered, and the stream ended or was cut there. */
    ghost predicate AllDelivered(ending: Ending)
      reads this, source
    {
      !torn ==> Decode(l, source.stream) == Decoded(delivered, ending)
    }

    /** A refusal that has nothing to do with the stream is in the schedule. */
    ghost predicate RefusalIsDue(why: Why) {
      why == Turned(ByToken) || why == Turned(Fault) ==> Refuses(source.script, why.cause)
    }

    /** The segment has what the caller wants at least, as long as the chunk holds more
        than that, the stream does not end and the read end is open. */
    ghost predicate MeetsBound(segm: RecvSegm, min: Option<nat>)
      requires source.Valid()
      reads this, source
    {
      min.Some? && min.value < payloadLeft ==>
        segm.initial >= min.value || segm.initial == |source.Rest()| || source.shut
    }

    /** The lower bound that is handed on to the source. */
    function Low(min: Option<nat>): nat
      reads this
    {
      if min.Some? && min.value < payloadLeft then min.value else 0
    }

    /** What the source answers first, to the read of a prefix or of payload. */
    function FirstOffer(min: Option<nat>): RawRead
      requires source.Valid()
      reads this, source
    {
      if payloadLeft == 0 then source.Offer(l, None) else source.Offer(Low(min), Some(payloadLeft))
    }

    /** `multipart_decode_read_async_`: a segment that holds payload of the current chunk
        only, or the error for what happened instead. The end is reported exactly when a
        zero prefix was read, and then all payload has been delivered. A prefix cut short
        and a source at its end mean that the stream was cut there; a refusal loses
        nothing, whatever the error says, and reading can go on. Over a source that tells
        its end and whose read end stays open, `Malformed` means a cut stream. Without a
        token or a refusal it is served, or told how the stream ends. */
    method Read(min: Option<nat>, token: bool) returns (r: Result<RecvSegm, RecvError>, ghost why: Why)
      requires Valid()
      modifies this`payloadLeft, this`eof, this`start, this`length, this`torn, source
      ensures Valid() && torn == (old(torn) || why.Torn?) && source.pos >= old(source.pos)
      ensures (why.TokenFirst? <==> token) && RefusalIsDue(why) && (r.Ok? ==> MeetsBound(r.value, min))
      ensures old(eof) ==> eof && (why.ZeroPrefix? || why.TokenFirst?)
      ensures ErrorOf(source.tags, why) == if r.Ok? then None else Some(r.error)
      ensures r.Ok? ==> fresh(r.value) && Holds(r.value) && r.value.left == r.value.initial > 0
      ensures why.ZeroPrefix? ==> eof && AllDelivered(Eof(source.Rest()))
      ensures why.Short? || why == Turned(Ended) ==> AllDelivered(Cut)
      ensures why.Torn? || why == Turned(ShutOff) ==> source.shut
      ensures TellsEnd(source.tags) && NoShuts(source.script) && r == Err(Malformed) ==>
        Decode(l, source.stream) == Decoded(delivered, Cut)
      ensures !token && !old(eof) && old(FirstOffer(min)).RawRefused? ==>
        why == Turned(old(FirstOffer(min)).cause) && source.pos == old(source.pos)
      ensures !token && !old(eof) && old(payloadLeft) == 0 && old(FirstOffer(min)).RawSegm? && old(FirstOffer(min)).n < l ==>
        && why == (if old(FirstOffer(min)).n == |old(source.Rest())| then Short else Torn)
        && source.pos == old(source.pos) + old(FirstOffer(min)).n
    {
      hide Decode, FromBigEndian, Remaining;
      if token { return Err(RecvError.Cancelled), TokenFirst; }
      if eof {
        assert delivered + [] == delivered;
        return Err(AtEof), ZeroPrefix;
      }
      if payloadLeft == 0 {
        var e;
        e, why := ReadPrefix();
        if e.Some? { return Err(e.value), why; }
      }
      r, why := ReadPayload(min);
    }

    /** Reads payload of the current chunk. */
    method ReadPayload(min: Option<nat>) returns (r: Result<RecvSegm, RecvError>, ghost why: Why)
      requires Valid() && !eof && payloadLeft > 0
      modifies source`next, source`shut
      ensures Valid() && !why.ZeroPrefix? && !why.TokenFirst? && !why.Short? && !why.Torn?
      ensures RefusalIsDue(why) && (r.Ok? ==> MeetsBound(r.value, min))
      ensures r.Ok? && (min.None? || min.value >= payloadLeft) ==>
        var size := old(source.Now()).size;
        r.value.initial == if size == 0 then 1 else Min(size, Min(payloadLeft, |source.Rest()|))
      ensures ErrorOf(source.tags, why) == if r.Ok? then None else Some(r.error)
      ensures r.Ok? ==> fresh(r.value) && Holds(r.value) && r.value.left == r.value.initial > 0
      ensures why == Turned(Ended) ==> AllDelivered(Cut)
      ensures why == Turned(ShutOff) ==> source.shut
      ensures var o := old(source.Offer(Low(min), Some(payloadLeft)));
        why == if o.RawRefused? then Turned(o.cause) else Served
    {
      hide Decode, FromBigEndian, Remaining;
      var raw := source.Lend(Low(min), Some(payloadLeft));
      match raw {
        case RawRefused(cause) =>
          if cause.Ended? && !torn { NothingAhead(); }
          r, why := Err(Refusal(source.tags.Of(cause))), Turned(cause);
        case RawSegm(n) =>
          var segm := new RecvSegm(source, n);
          r, why := Ok(segm), Served;
      }
    }

    /** Reads and drops the length prefix of the next chunk. */
    method ReadPrefix() returns (e: Option<RecvError>, ghost why: Why)
      requires Valid() && !eof && payloadLeft == 0
      modifies this`payloadLeft, this`eof, this`start, this`length, this`torn, source
      ensures Valid() && torn == (old(torn) || why.Torn?) && source.pos >= old(source.pos)
      ensures (e.None? ==> payloadLeft > 0 && !eof) && (why.ZeroPrefix? || !eof)
      ensures e == ErrorOf(source.tags, why) && why != TokenFirst && RefusalIsDue(why)
      ensures why.ZeroPrefix? ==> eof && AllDelivered(Eof(source.Rest()))
      ensures why.Short? || why == Turned(Ended) ==> AllDelivered(Cut)
      ensures why.Torn? || why == Turned(ShutOff) ==> source.shut
      ensures var o, rest := old(source.Offer(l, None)), old(source.Rest());
        && (o.RawRefused? ==> why == Turned(o.cause) && source.pos == old(source.pos))
        && (o.RawSegm? && o.n < l ==>
              why == (if o.n == |rest| then Short else Torn) && source.pos == old(source.pos) + o.n)
        && (o.RawSegm? && o.n >= l ==> why.Served? || why.ZeroPrefix?)
    {
      hide Decode, FromBigEndian, Inside, Remaining, Sum;
      var raw := source.Lend(l, None);
      match raw {
        case RawRefused(cause) =>
          if cause.Ended? && !torn { NothingAhead(); }
          e, why := Some(Refusal(source.tags.Of(cause))), Turned(cause);
        case RawSegm(n) =>
          if n >= l {
            e := TakePrefix();
            why := if e.Some? then ZeroPrefix else Served;
          } else {
            e := Some(Malformed);
            why := TakeShort(n);
          }
      }
    }

    /** A stream that ends where a prefix or payload should be is cut. */
    lemma NothingAhead()
      requires Valid() && !torn && !eof && source.Rest() == []
      ensures Decode(l, source.stream) == Decoded(delivered, Cut)
    {
      hide Decode, FromBigEndian;
      AtBoundary(l, source.Rest());
      assert delivered + [] == delivered;
    }

    /** A part of a prefix: what is there of it is consumed, at the end of the stream or
        not. */
    method TakeShort(n: nat) returns (ghost why: Why)
      requires Valid() && !eof && payloadLeft == 0 && n < l && n <= |source.Rest()|
      requires n == |source.Rest()| || source.shut
      modifies this`torn, source`pos
      ensures Valid() && torn == (old(torn) || why.Torn?) && source.pos == old(source.pos) + n
      ensures why == if n == |old(source.Rest())| then Short else Torn
      ensures why.Short? ==> AllDelivered(Cut)
    {
      AtBoundary(l, source.Rest());
      why := if n == |source.Rest()| then Short else Torn;
      torn := torn || n < |source.Rest()|;
      source.Take(n);
      AtBoundary(l, source.Rest());
      hide Decode, Remaining;
      assert delivered + [] == delivered;
    }

    method TakePrefix() returns (e: Option<RecvError>)
      requires Valid() && !eof && payloadLeft == 0 && |source.Rest()| >= l
      modifies this`payloadLeft, this`eof, this`start, this`length, source`pos
      ensures Valid() && source.pos >= old(source.pos) && (e.None? ==> payloadLeft > 0 && !eof)
      ensures e.Some? ==> e == Some(AtEof) && eof && AllDelivered(Eof(source.Rest()))
    {
      ghost var s := source.Rest();
      AtBoundary(l, s);
      hide Decode, FromBigEndian, Inside, Remaining;
      var prefix := source.stream[source.pos..source.pos + l];
      assert prefix == s[..l];
      source.Take(l);
      assert source.Rest() == s[l..];
      var v := DecodeValue(prefix);
      if v.value == 0 {
        eof := true;
        assert delivered + [] == delivered;
        return Some(AtEof);
      }
      payloadLeft, start, length := v.value, source.pos, v.value;
      assert source.stream[start - l..start] == prefix;
      return None;
    }

    /** What a live segment may still give: bytes of the current payload. */
    ghost predicate Holds(segm: RecvSegm)
      reads this, source, segm
    {
      && source.Valid() && !eof && segm.source == source
      && segm.left <= segm.initial <= payloadLeft && segm.initial <= |source.Rest()|
    }

    /** A segment drops: the count goes down by just what was taken through it, and that
        was the next of the payload. */
    method DropSegm(segm: RecvSegm)
      requires Valid() && Holds(segm)
      modifies this`payloadLeft, this`delivered, source`pos
      ensures Valid() && payloadLeft == old(payloadLeft) - (segm.initial - segm.left)
      ensures source.pos == old(source.pos) + (segm.initial - segm.left)
      ensures delivered == old(delivered) + old(source.Rest())[..segm.initial - segm.left]
    {
      hide Decode, FromBigEndian;
      var consumed := segm.initial - segm.left;
      ghost var s := source.Rest();
      TakeSome(l, payloadLeft, s, consumed);
      source.Take(consumed);
      payloadLeft := payloadLeft - consumed;
      delivered := delivered + s[..consumed];
      assert source.Rest() == s[consumed..];
      SumOfSum(old(delivered), s[..consumed], Ahead());
    }
  }

  /** Takes what it likes of a segment, at least one byte, in any portions. */
  method TakeAny(segm: RecvSegm) returns (got: Bytes)
    requires segm.source.Valid() && segm.left == segm.initial && 0 < segm.initial <= |segm.source.Rest()|
    modifies segm
    ensures segm.left < segm.initial && got == segm.source.Rest()[..segm.initial - segm.left]
  {
    got := segm.Take(1);
    while segm.left > 0
      invariant segm.left < segm.initial && got == segm.source.Rest()[..segm.initial - segm.left]
      decreases segm.left
    {
      if * { break; }
      var k: nat :| 1 <= k <= segm.left;
      var more := segm.Take(k);
      got := got + more;
    }
  }

  /** A caller that reads to the end, taking any part of each segment and trying again
      after at most `retries` errors: what it gets is what was delivered, always a front
      of the payload unless a prefix was torn. With the end of stream as the last answer
      it is all of it. `tokens` says at which reads the token is seen first. */
  method ReceiveAll(recv: MultipartRecv, tokens: seq<bool>, retries: nat) returns (out: Bytes, last: RecvError, ghost why: Why)
    requires recv.Valid() && recv.delivered == []
    modifies recv, recv.source
    ensures recv.Valid() && out == recv.delivered && Some(last) == ErrorOf(recv.source.tags, why)
    ensures recv.RefusalIsDue(why) && (why.TokenFirst? ==> true in tokens)
    ensures !recv.torn ==> out <= Decode(recv.l, recv.source.stream).payload
    ensures why.ZeroPrefix? ==> recv.AllDelivered(Eof(recv.source.Rest()))
    ensures why.Short? || why == Turned(Ended) ==> recv.AllDelivered(Cut)
    ensures why.Torn? || why == Turned(ShutOff) ==> recv.source.shut
    ensures TellsEnd(recv.source.tags) && NoShuts(recv.source.script) && last == Malformed ==>
      Decode(recv.l, recv.source.stream) == Decoded(out, Cut)
  {
    hide Decode, FromBigEndian;
    out := [];
    var left, i := retries, 0;
    while true
      invariant recv.Valid() && out == recv.delivered
      decreases |recv.source.Rest()|, left
    {
      var r;
      r, why := recv.Read(Some(1), i < |tokens| && tokens[i]);
      i := i + 1;
      if r.Ok? {
        var got := TakeAny(r.value);
        recv.DropSegm(r.value);
        out := out + got;
      } else {
        last := r.error;
        if left == 0 || last.AtEof? { return; }
        left := left - 1;
      }
    }
  }

  /** What surrounds an encoder, and a decoder. */
  datatype Setting = Setting(tags: Tags, script: seq<Answer>, tokens: seq<bool>) {
    /** A source that tells its end and whose read end stays open. */
    predicate Sound() { TellsEnd(tags) && NoShuts(script) }

    /** Nothing from outside gets in between. */
    ghost predicate Calm() {
      true !in tokens && NoShuts(script) && !Refuses(script, ByToken) && !Refuses(script, Fault)
    }
  }

  /** The encoder alone, over `data` in any setting and with any target segments. */
  method EncodeAll(l: PrefixLen, data: Bytes, from: Setting, rooms: seq<Option<nat>>)
    returns (written: Bytes, ghost stop: Stop, ghost c: nat)
    ensures c <= |data|
    ensures Terminates(from.tags, stop) ==>
      forall rest: Bytes :: Decode(l, written + rest) == Decoded(data[..c], Eof(rest))
    ensures !Terminates(from.tags, stop) ==> Decode(l, written) == Decoded(data[..c], Cut)
    ensures NoShuts(from.script) && (stop.Finished? || stop == WaitRefused(Ended)) ==> c == |data|
    ensures from.Sound() && Terminates(from.tags, stop) ==> c == |data|
    ensures Undisturbed(from.script, rooms, from.tokens) ==> stop.Finished? || stop == WaitRefused(Ended)
  {
    hide Decode;
    var source := new Source(data, from.tags, from.script);
    var sink := new Sink(rooms);
    var err, n;
    ghost var chunks, part;
    n, err, stop, chunks, part := Send(l, source, sink, from.tokens);
    c, written := n, sink.written;
  }

  /** The decoder alone, over any stream in any setting. */
  method DecodeAll(l: PrefixLen, stream: Bytes, to: Setting, retries: nat) returns (out: Bytes, last: RecvError, ghost why: Why)
    ensures Some(last) == ErrorOf(to.tags, why)
    ensures NoShuts(to.script) ==> out <= Decode(l, stream).payload && !why.Torn? && why != Turned(ShutOff)
    ensures to.Calm() ==> !Interrupted(why)
    ensures NoShuts(to.script) && why.ZeroPrefix? ==> Decode(l, stream).payload == out && Decode(l, stream).ending.Eof?
    ensures NoShuts(to.script) && (why.Short? || why == Turned(Ended)) ==> Decode(l, stream) == Decoded(out, Cut)
    ensures to.Sound() && last == Malformed ==> Decode(l, stream) == Decoded(out, Cut)
  {
    hide Decode;
    var raw := new RawSource(stream, to.tags, to.script);
    var recv := new MultipartRecv(l, raw);
    out, last, why := ReceiveAll(recv, to.tokens, retries);
  }

  /** End to end: an encoder over `data` in any setting and with any target segments, then
      anything at all behind what it wrote, then a decoder in any setting, read in any
      portions. From a source taken whole and an undisturbed last read the bytes that
      come out are those that went in, and the last answer is the end of stream; so it is
      when neither side is disturbed, however the bytes are cut up on the way. Over
      sound sources the answers alone tell: an end of stream means that all came out, and
      `Malformed` that the stream was cut. */
  method Transfer(l: PrefixLen, data: Bytes, from: Setting, rooms: seq<Option<nat>>, rest: Bytes, to: Setting, retries: nat)
    returns (out: Bytes, last: RecvError, ghost stop: Stop, ghost why: Why)
    ensures Some(last) == ErrorOf(to.tags, why)
    ensures NoShuts(to.script) && (Terminates(from.tags, stop) || rest == []) ==> out <= data
    ensures NoShuts(from.script) && NoShuts(to.script) && AtItsEnd(from.tags, stop) && !Interrupted(why) ==>
      why.ZeroPrefix? && out == data
    ensures Undisturbed(from.script, rooms, from.tokens) && ReadsAsEof(from.tags.ended) && to.Calm() ==>
      last == AtEof && out == data
    ensures from.Sound() && NoShuts(to.script) && last == AtEof && (Terminates(from.tags, stop) || rest == []) ==>
      out == data
    ensures to.Sound() && last == Malformed && rest == [] ==> !Terminates(from.tags, stop)
  {
    hide Decode, NoShuts, TellsEnd;
    var written;
    ghost var c;
    written, stop, c := EncodeAll(l, data, from, rooms);
    out, last, why := DecodeAll(l, written + rest, to, retries);
    OnlyZeroPrefixEnds(to.tags, why);
    assert rest == [] ==> written + rest == written;
    assert Terminates(from.tags, stop) ==> Decode(l, written + rest) == Decoded(data[..c], Eof(rest));
  }

  lemma OnlyZeroPrefixEnds(tags: Tags, why: Why)
    ensures ErrorOf(tags, why) == Some(AtEof) <==> why.ZeroPrefix?
  {}

  /** The encoder stopped because its source was at its end. */
  predicate AtItsEnd(tags: Tags, stop: Stop) {
    stop.Finished? || (stop == WaitRefused(Ended) && Terminates(tags, stop))
  }

  /** The last answer came from a token or a fault, not from the stream. */
  predicate Interrupted(why: Why) {
    why.TokenFirst? || (why.Turned? && !why.cause.Ended?)
  }

  /** Any tag that takes a cancellation or a fault for an end fails: over such a source a
      refused read is answered `Malformed`, whatever the stream holds, and nothing of it
      has been taken. */
  method DishonestRead(l: PrefixLen, stream: Bytes, tags: Tags, cause: Cause) returns (e: RecvError, taken: nat)
    requires (cause.ByToken? || cause.Fault?) && ReadsAsEof(tags.Of(cause))
    ensures e == Malformed && taken == 0
  {
    var raw := new RawSource(stream, tags, [Answer(0, false, false, Some(cause), 1)]);
    var recv := new MultipartRecv(l, raw);
    ghost var why;
    var r;
    assert recv.FirstOffer(None) == RawRefused(cause);
    r, why := recv.Read(None, false);
    e, taken := r.error, raw.pos;
  }

  /** The circular buffer is such a source, and a cancelled read is never answered with
      `Cancelled` there. */
  method CancelledReadLooksCut(l: PrefixLen, chunks: Chunks) returns (e: RecvError)
    requires Fit(l, chunks)
    ensures e == Malformed && Decode(l, Wire(l, chunks) + End(l) + []) == Decoded(Join(chunks), Eof([]))
    ensures forall cause :: ErrorOf(RING_TAGS, Turned(cause)) != Some(RecvError.Cancelled)
  {
    RoundTrip(l, chunks, []);
    var taken;
    e, taken := DishonestRead(l, Wire(l, chunks) + End(l) + [], RING_TAGS, ByToken);
  }

  /** A read end that is closed early tears a prefix of more than one byte, whatever the
      tags: the answer is `Malformed`, and a byte of the prefix is gone. */
  method ShutReadTearsPrefix(l: PrefixLen, stream: Bytes, tags: Tags) returns (e: RecvError, taken: nat)
    requires l >= 2 && |stream| >= 2
    ensures e == Malformed && taken == 1
  {
    var raw := new RawSource(stream, tags, [Answer(0, false, true, None, 1)]);
    var recv := new MultipartRecv(l, raw);
    ghost var why;
    var r;
    assert recv.FirstOffer(None) == RawSegm(1);
    r, why := recv.Read(None, false);
    e, taken := r.error, raw.pos;
  }

  function Sum(before: Bytes, d: Decoded): Decoded { Decoded(before + d.payload, d.ending) }

  lemma SumOfSum(a: Bytes, b: Bytes, d: Decoded)
    ensures Sum(a, Sum(b, d)) == Sum(a + b, d)
  {
    assert a + (b + d.payload) == a + b + d.payload;
  }

  /** Between chunks: cut, at the end, or at the start of a chunk. */
  lemma AtBoundary(l: PrefixLen, s: Bytes)
    ensures |s| < l ==> Remaining(l, 0, s) == Decoded([], Cut)
    ensures |s| >= l ==> var n := FromBigEndian(s[..l]);
      Remaining(l, 0, s) == if n == 0 then Decoded([], Eof(s[l..])) else Remaining(l, n, s[l..])
  {}

  /** Taking `k` bytes inside a chunk takes the next `k` bytes of payload. */
  lemma TakeSome(l: PrefixLen, left: nat, s: Bytes, k: nat)
    requires k <= left && k <= |s|
    ensures Remaining(l, left, s) == Sum(s[..k], Remaining(l, left - k, s[k..]))
  {
    if left > 0 && |s| >= left {
      assert s[k..][left - k..] == s[left..];
      assert s[..k] + s[k..][..left - k] == s[..left];
      if k == left { assert s[..k] + Decode(l, s[left..]).payload == Inside(l, left, s).payload; }
      else { Triple(s[..k], s[k..][..left - k], Decode(l, s[left..]).payload); }
    } else if left > 0 {
      assert s[..k] + s[k..] == s;
    } else {
      assert s[..k] == [] && s[k..] == s && [] + Decode(l, s).payload == Decode(l, s).payload;
    }
  }
}
