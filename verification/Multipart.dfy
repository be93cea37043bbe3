/** Multipart framing: a stream is cut into chunks, each behind its length in 1, 2 or 4
    big-endian bytes; a zero length ends the stream. */
module Multipart {
  import opened Common
  import opened FrameCodec

  // -------------------------------------------------------------------------
  // The format
  // -------------------------------------------------------------------------

  /** `PREFIX_LEN` of the three prefix types, in bytes. */
  type PrefixLen = l: nat | l == 1 || l == 2 || l == 4 witness 2

  /** `PREFIX_MAX`: how many lengths a prefix can tell. */
  function PrefixMax(l: PrefixLen): (m: nat)
    ensures m >= 0x100
  {
    if l == 1 then 0x100 else if l == 2 then 0x1_0000 else 0x1_0000_0000
  }

  lemma PrefixMaxIs(l: PrefixLen)
    ensures PrefixMax(l) == Pow256(l)
  {
    Widths();
  }

  type Chunks = seq<Bytes>

  ghost predicate Fit(l: PrefixLen, chunks: Chunks) {
    forall i :: 0 <= i < |chunks| ==> 1 <= |chunks[i]| <= PrefixMax(l) - 1
  }

  function Join(chunks: Chunks): Bytes {
    if chunks == [] then [] else chunks[0] + Join(chunks[1..])
  }

  /** The chunks on the wire. */
  function Wire(l: PrefixLen, chunks: Chunks): Bytes {
    if chunks == [] then [] else BigEndian(l, |chunks[0]|) + chunks[0] + Wire(l, chunks[1..])
  }

  function End(l: PrefixLen): Bytes { BigEndian(l, 0) }

  /** How a stream ends: with a zero prefix and what follows it, or cut short. */
  datatype Ending = Eof(rest: Bytes) | Cut

  datatype Decoded = Decoded(payload: Bytes, ending: Ending)

  /** The payload of a stream read from a chunk boundary. */
  function Decode(l: PrefixLen, s: Bytes): Decoded
    decreases |s|
  {
    if |s| < l then Decoded([], Cut)
    else
      var n := FromBigEndian(s[..l]);
      if n == 0 then Decoded([], Eof(s[l..])) else Inside(l, n, s[l..])
  }

  /** The payload of a stream read from where `left` bytes of a chunk are still to come. */
  function Inside(l: PrefixLen, left: nat, s: Bytes): Decoded
    requires left > 0
    decreases |s|
  {
    if |s| < left then Decoded(s, Cut)
    else
      var d := Decode(l, s[left..]);
      Decoded(s[..left] + d.payload, d.ending)
  }

  /** What is left to deliver, anywhere in a stream. */
  function Remaining(l: PrefixLen, left: nat, s: Bytes): Decoded {
    if left == 0 then Decode(l, s) else Inside(l, left, s)
  }

  // -------------------------------------------------------------------------
  // Round trip
  // -------------------------------------------------------------------------

  lemma {:induction false} EndIsZero(l: nat, s: Bytes)
    requires |s| == l
    ensures FromBigEndian(s) == 0 <==> s == BigEndian(l, 0)
  {
    if l > 0 {
      EndIsZero(l - 1, s[..l - 1]);
      assert s == s[..l - 1] + [s[l - 1]];
    }
  }

  /** A number has one encoding of each width. */
  lemma {:induction false} EncodingIsUnique(s: Bytes)
    ensures BigEndian(|s|, FromBigEndian(s)) == s
  {
    if s != [] {
      var init, last := s[..|s| - 1], s[|s| - 1];
      EncodingIsUnique(init);
      var x := FromBigEndian(init);
      assert FromBigEndian(s) == x * 0x100 + last;
      assert (x * 0x100 + last) / 0x100 == x && (x * 0x100 + last) % 0x100 == last;
      assert BigEndian(|s|, x * 0x100 + last) == BigEndian(|init|, x) + [last];
      assert s == init + [last];
    }
  }

  lemma OneChunk(l: PrefixLen, chunk: Bytes, rest: Bytes)
    requires 1 <= |chunk| <= PrefixMax(l) - 1
    ensures var d := Decode(l, rest);
      Decode(l, BigEndian(l, |chunk|) + chunk + rest) == Decoded(chunk + d.payload, d.ending)
  {
    PrefixMaxIs(l);
    BigEndianRoundTrip(l, |chunk|);
    hide BigEndian, FromBigEndian, PrefixMax, Pow256;
    var s := BigEndian(l, |chunk|) + chunk + rest;
    assert s[..l] == BigEndian(l, |chunk|);
    assert s[l..] == chunk + rest;
    assert (chunk + rest)[|chunk|..] == rest && (chunk + rest)[..|chunk|] == chunk;
  }

  /** Round trip: for any chunking, the chunks and the terminator decode to exactly the
      bytes that went in, and what follows the terminator is untouched. */
  lemma {:induction false} RoundTrip(l: PrefixLen, chunks: Chunks, rest: Bytes)
    requires Fit(l, chunks)
    ensures Decode(l, Wire(l, chunks) + End(l) + rest) == Decoded(Join(chunks), Eof(rest))
  {
    hide Decode, BigEndian, Wire, Join;
    NoChunks(l);
    if chunks == [] {
      EndDecodes(l, rest);
      assert [] + End(l) + rest == End(l) + rest;
    } else {
      var head, tail := chunks[0], chunks[1..];
      RoundTrip(l, tail, rest);
      OneChunk(l, head, Wire(l, tail) + End(l) + rest);
      ConsChunk(l, head, tail);
      assert chunks == [head] + tail;
      Regroup(BigEndian(l, |head|) + head, Wire(l, tail), End(l), rest);
    }
  }

  lemma Regroup(a: Bytes, b: Bytes, c: Bytes, d: Bytes)
    ensures a + (b + c + d) == a + b + c + d
  {}

  lemma EndDecodes(l: PrefixLen, rest: Bytes)
    ensures Decode(l, End(l) + rest) == Decoded([], Eof(rest))
  {
    EndIsZero(l, End(l));
    hide BigEndian, FromBigEndian;
    assert (End(l) + rest)[..l] == End(l) && (End(l) + rest)[l..] == rest;
  }

  /** The chunks of a stream up to its first zero prefix. */
  function ChunksOf(l: PrefixLen, s: Bytes): Chunks
    decreases |s|
  {
    if |s| < l then []
    else
      var n := FromBigEndian(s[..l]);
      if n == 0 || |s| - l < n then [] else [s[l..][..n]] + ChunksOf(l, s[l..][n..])
  }

  /** And only such streams end: whatever decodes to an end of stream is the encoding of
      chunks that fit, up to its first zero prefix. */
  lemma {:induction false} EofOnlyAfterZeroPrefix(l: PrefixLen, s: Bytes)
    requires Decode(l, s).ending.Eof?
    ensures Fit(l, ChunksOf(l, s)) && Join(ChunksOf(l, s)) == Decode(l, s).payload
    ensures s == Wire(l, ChunksOf(l, s)) + End(l) + Decode(l, s).ending.rest
    decreases |s|
  {
    hide BigEndian, FromBigEndian, PrefixMax, Fit, Join, Wire, Decode, Inside, ChunksOf;
    Unfold(l, s);
    PrefixOf(l, s);
    var n := FromBigEndian(s[..l]);
    if n == 0 {
      NoChunks(l);
    } else {
      var chunk, tail := s[l..][..n], s[l..][n..];
      EofOnlyAfterZeroPrefix(l, tail);
      ConsChunk(l, chunk, ChunksOf(l, tail));
      Rejoin(s, l, n);
    }
  }

  lemma NoChunks(l: PrefixLen)
    ensures Fit(l, []) && Join([]) == [] && Wire(l, []) == []
  {}

  lemma ConsChunk(l: PrefixLen, chunk: Bytes, more: Chunks)
    requires Fit(l, more) && 1 <= |chunk| <= PrefixMax(l) - 1
    ensures Fit(l, [chunk] + more) && Join([chunk] + more) == chunk + Join(more)
    ensures Wire(l, [chunk] + more) == BigEndian(l, |chunk|) + chunk + Wire(l, more)
  {
    assert ([chunk] + more)[1..] == more;
  }

  lemma Rejoin(s: Bytes, l: nat, n: nat)
    requires l + n <= |s|
    ensures s == s[..l] + s[l..][..n] + s[l..][n..]
  {}

  lemma PrefixOf(l: PrefixLen, s: Bytes)
    requires l <= |s|
    ensures var n := FromBigEndian(s[..l]); n < PrefixMax(l) && s == BigEndian(l, n) + s[l..]
  {
    hide BigEndian, FromBigEndian, PrefixMax, Pow256;
    var p := s[..l];
    EncodingIsUnique(p);
    FromBigEndianBound(p);
    PrefixMaxIs(l);
    assert s == p + s[l..];
  }

  lemma Unfold(l: PrefixLen, s: Bytes)
    requires Decode(l, s).ending.Eof?
    ensures l <= |s|
    ensures var n, t := FromBigEndian(s[..l]), s[l..];
      if n == 0 then Decode(l, s) == Decoded([], Eof(t)) && ChunksOf(l, s) == []
      else
        && n <= |t| && Decode(l, t[n..]).ending == Decode(l, s).ending
        && Decode(l, s).payload == t[..n] + Decode(l, t[n..]).payload
        && ChunksOf(l, s) == [t[..n]] + ChunksOf(l, t[n..])
  {
    hide FromBigEndian;
  }

  lemma SliceTwice(t: Bytes, k: nat, n: nat)
    requires n <= k <= |t|
    ensures t[..k][n..] == t[n..][..k - n] && t[..k][..n] == t[..n]
  {}

  /** A stream cut anywhere before the end of its terminator gives a prefix of the
      payload and no end of stream. */
  lemma {:induction false} CutIsNeverEof(l: PrefixLen, s: Bytes, i: nat)
    requires i <= |s| && Decode(l, s).ending.Eof? && i < |s| - |Decode(l, s).ending.rest|
    ensures Decode(l, s[..i]).ending.Cut? && Decode(l, s[..i]).payload <= Decode(l, s).payload
    decreases |s|
  {
    hide FromBigEndian;
    var n := FromBigEndian(s[..l]);
    if i >= l {
      var t := s[l..];
      assert s[..i][..l] == s[..l];
      assert s[..i][l..] == t[..i - l];
      if n > 0 && i - l >= n {
        var j := i - l - n;
        CutIsNeverEof(l, t[n..], j);
        SliceTwice(t, i - l, n);
        var less, more := Decode(l, t[n..][..j]).payload, Decode(l, t[n..]).payload;
        assert t[..n] + less <= t[..n] + more;
      } else if n > 0 {
        assert t[..i - l] <= t[..n];
      }
    }
  }

  lemma Triple(a: Bytes, b: Bytes, c: Bytes)
    ensures a + (b + c) == a + b + c
  {}

  // -------------------------------------------------------------------------
  // Refused reads
  // -------------------------------------------------------------------------

  /** `ReadErrTag`. */
  datatype Tag = Closing | Drained | Unsatisfied | Cancelled | Propagated | Unknown

  /** Why a source refuses a read: it is at its end; its read end was closed while its
      producer goes on; the token of the call was cancelled; something else went wrong. */
  datatype Cause = Ended | ShutOff | ByToken | Fault

  /** How a source tags its errors. A closed read end gives the error of the end. */
  datatype Tags = Tags(ended: Tag, byToken: Tag, fault: Tag) {
    function Of(c: Cause): Tag {
      match c case ByToken => byToken case Fault => fault case _ => ended
    }
  }

  /** The read end of the circular buffer tags a cancellation like an end. */
  const RING_TAGS: Tags := Tags(Closing, Closing, Unknown)

  /** `is_read_eof_`. */
  predicate ReadsAsEof(t: Tag) { t.Closing? || t.Drained? }

  /** A source whose tags tell its end from a cancellation and from a fault. */
  predicate TellsEnd(t: Tags) {
    ReadsAsEof(t.ended) && !ReadsAsEof(t.byToken) && !ReadsAsEof(t.fault)
  }

  /** That is, one that tags its end `Closing` or `Drained` and all else otherwise. */
  lemma TellsEndExactly(t: Tags)
    ensures TellsEnd(t) <==>
      && t.ended in {Tag.Closing, Tag.Drained}
      && {t.byToken, t.fault} <= {Tag.Unsatisfied, Tag.Cancelled, Tag.Propagated, Tag.Unknown}
  {
    assert t.byToken in {t.byToken, t.fault} && t.fault in {t.byToken, t.fault};
  }
}
