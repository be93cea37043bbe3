/** Handshake frames: four bytes of magic, entries of one header byte and a big-endian
    value of 1, 2, 4 or 8 bytes in any order, and a checksum entry that ends the frame.
    The two checksums are parameters: nothing below depends on how they are computed. */
module FrameCodec {
  import opened Common

  type Byte = x: int | 0 <= x < 0x100
  type U16 = x: int | 0 <= x < 0x1_0000
  type U32 = x: int | 0 <= x < 0x1_0000_0000
  type U64 = x: int | 0 <= x < 0x1_0000_0000_0000_0000

  type Bytes = seq<Byte>

  datatype Checksums = Checksums(crc16: Bytes -> U16, crc32: Bytes -> U32)

  const MAX_HANDSHAKE_FRAME: nat := 64
  const CHECKSUM_HEADER_CRC16: Byte := 0x1C
  const CHECKSUM_HEADER_CRC32: Byte := 0x2C

  type Magic = m: Bytes | |m| == 4 witness [0, 0, 0, 0]

  const INVITE: Magic := [95, 27, 0x01, 0x69]
  const ACCEPT: Magic := [95, 27, 0x01, 0x41]
  const REJECT: Magic := [95, 27, 0x01, 0x4A]
  const CONFRM: Magic := [95, 27, 0x01, 0x63]

  predicate IsMagic(m: Magic) {
    m == INVITE || m == ACCEPT || m == CONFRM || m == REJECT
  }

  /** The four basic keys, each with a value or without one. */
  type Values = v: seq<Option<U64>> | |v| == 4 witness [None, None, None, None]

  datatype Entry = Entry(optsKey: Byte, val: U64)

  type Entries = e: seq<Option<Entry>> | |e| == 4 witness [None, None, None, None]

  datatype Frame = Frame(magic: Magic, entries: Entries)

  datatype ParseError =
    | NeedMore(n: nat) | InvalidMagic | UnsupportedOption | MalformedBody | FrameTooLarge | ChecksumErr

  // -------------------------------------------------------------------------
  // Numbers
  // -------------------------------------------------------------------------

  /** The last `w` bytes of `v`, most significant first. */
  function BigEndian(w: nat, v: nat): (s: Bytes)
    ensures |s| == w
  {
    if w == 0 then [] else BigEndian(w - 1, v / 0x100) + [v % 0x100]
  }

  function FromBigEndian(s: Bytes): nat {
    if s == [] then 0 else FromBigEndian(s[..|s| - 1]) * 0x100 + s[|s| - 1]
  }

  function Pow256(w: nat): nat {
    if w == 0 then 1 else 0x100 * Pow256(w - 1)
  }

  lemma {:induction false} BigEndianRoundTrip(w: nat, v: nat)
    requires v < Pow256(w)
    ensures FromBigEndian(BigEndian(w, v)) == v
  {
    if w > 0 {
      BigEndianRoundTrip(w - 1, v / 0x100);
      assert BigEndian(w, v)[..w - 1] == BigEndian(w - 1, v / 0x100);
    }
  }

  lemma {:induction false} FromBigEndianBound(s: Bytes)
    ensures FromBigEndian(s) < Pow256(|s|)
  {
    if s != [] { FromBigEndianBound(s[..|s| - 1]); }
  }

  lemma Widths()
    ensures Pow256(1) == 0x100 && Pow256(2) == 0x1_0000 && Pow256(4) == 0x1_0000_0000
    ensures Pow256(8) == 0x1_0000_0000_0000_0000
  {
    assert Pow256(4) == 0x100 * Pow256(3);
    assert Pow256(6) == 0x1_0000_0000_0000;
  }

  /** The two type bits and the number of bytes of the narrowest encoding. */
  function TypeOf(v: U64): (t: nat)
    ensures t < 4
  {
    if v <= 0xFF then 0 else if v <= 0xFFFF then 1 else if v <= 0xFFFF_FFFF then 2 else 3
  }

  function WidthOf(t: nat): nat {
    if t == 0 then 1 else if t == 1 then 2 else if t == 2 then 4 else 8
  }

  /** A value fits the encoding of type `t` exactly when its narrowest one is no wider. */
  lemma FitsExactly(v: U64, t: nat)
    requires t < 4
    ensures v < Pow256(WidthOf(t)) <==> TypeOf(v) <= t
    ensures v < Pow256(WidthOf(t)) <==> WidthOf(TypeOf(v)) <= WidthOf(t)
  {
    Widths();
  }

  // -------------------------------------------------------------------------
  // Building
  // -------------------------------------------------------------------------

  function EncodeEntry(key: nat, v: U64): Bytes
    requires key < 4
  {
    [0x10 * TypeOf(v) + key] + BigEndian(WidthOf(TypeOf(v)), v)
  }

  /** The entries of the first `k` keys. */
  function Body(values: Values, k: nat): Bytes
    requires k <= 4
  {
    if k == 0 then []
    else Body(values, k - 1) + (if values[k - 1].Some? then EncodeEntry(k - 1, values[k - 1].value) else [])
  }

  function Covered(magic: Magic, values: Values): Bytes {
    magic + Body(values, 4) + [CHECKSUM_HEADER_CRC16]
  }

  /** The frame the builder writes. */
  function Build(c: Checksums, magic: Magic, values: Values): Bytes {
    Covered(magic, values) + BigEndian(2, c.crc16(Covered(magic, values)))
  }

  /** What a value takes in its narrowest encoding, header included. */
  function Cost(values: Values, k: nat): nat
    requires k <= 4
  {
    if k == 0 then 0
    else Cost(values, k - 1) + (if values[k - 1].Some? then 1 + WidthOf(TypeOf(values[k - 1].value)) else 0)
  }

  lemma {:induction false} BodyLength(values: Values, k: nat)
    requires k <= 4
    ensures |Body(values, k)| == Cost(values, k) <= 9 * k
  {
    if k > 0 { BodyLength(values, k - 1); }
  }

  /** A frame is at most 43 bytes long, so the 64-byte buffer always takes it. */
  lemma BuiltLength(c: Checksums, magic: Magic, values: Values)
    ensures |Build(c, magic, values)| == 4 + Cost(values, 4) + 3 <= 43 < MAX_HANDSHAKE_FRAME
  {
    BodyLength(values, 4);
  }

  /** Stores `part` at `at`. */
  method Store(out: array<Byte>, at: nat, part: Bytes)
    requires at + |part| <= out.Length
    modifies out
    ensures out[..at + |part|] == old(out[..at]) + part
    ensures forall i :: at + |part| <= i < out.Length ==> out[i] == old(out[i])
  {
    forall i | 0 <= i < |part| {
      out[at + i] := part[i];
    }
  }

  /** `encode_basic_entry_` at position `at` of the buffer. */
  method EncodeBasicEntry(key: nat, v: U64, out: array<Byte>, at: nat) returns (n: Option<nat>)
    requires key < 4 && at <= out.Length
    modifies out
    ensures n == if out.Length - at < |EncodeEntry(key, v)| then None else Some(|EncodeEntry(key, v)|)
    ensures n.Some? ==> out[..at + n.value] == old(out[..at]) + EncodeEntry(key, v)
    ensures n.Some? ==> forall i :: at + n.value <= i < out.Length ==> out[i] == old(out[i])
    ensures n.None? ==> out[..] == old(out[..])
  {
    var t := TypeOf(v);
    var width := WidthOf(t);
    if out.Length - at < 1 + width { return None; }
    Store(out, at, EncodeEntry(key, v));
    return Some(1 + width);
  }

  /** `build_frame_`: fills the buffer from its start when the frame fits, and says so
      when it does not. */
  method BuildFrame(c: Checksums, magic: Magic, values: Values, out: array<Byte>) returns (n: Option<nat>)
    modifies out
    ensures n == if |Build(c, magic, values)| <= out.Length then Some(|Build(c, magic, values)|) else None
    ensures n.Some? ==> out[..n.value] == Build(c, magic, values)
    ensures n.Some? ==> forall i :: n.value <= i < out.Length ==> out[i] == old(out[i])
  {
    hide EncodeEntry, BigEndian, Body;
    BodyLength(values, 4);
    BodyStarts(magic, values);
    if out.Length < 4 { return None; }
    Store(out, 0, magic);
    var pos := 4;
    for key := 0 to 4
      invariant pos == 4 + |Body(values, key)| <= out.Length
      invariant out[..pos] == magic + Body(values, key)
      invariant forall i :: pos <= i < out.Length ==> out[i] == old(out[i])
    {
      BodyStep(magic, values, key);
      if values[key].Some? {
        var written := EncodeBasicEntry(key, values[key].value, out, pos);
        if written.None? { return None; }
        pos := pos + written.value;
      }
    }
    if out.Length < pos + 3 { return None; }
    Seal(c, out, pos);
    n := Some(pos + 3);
  }

  lemma BodyStarts(magic: Magic, values: Values)
    ensures Body(values, 0) == [] && magic + Body(values, 0) == magic
  {}

  lemma BodyStep(magic: Magic, values: Values, key: nat)
    requires key < 4
    ensures |Body(values, key + 1)| <= |Body(values, 4)|
    ensures magic + Body(values, key + 1) ==
      magic + Body(values, key) + if values[key].Some? then EncodeEntry(key, values[key].value) else []
  {
    hide EncodeEntry;
    BodyGrows(values, key + 1);
  }

  /** The checksum entry: its header is covered by the checksum. */
  method Seal(c: Checksums, out: array<Byte>, pos: nat)
    requires pos + 3 <= out.Length
    modifies out
    ensures var covered := old(out[..pos]) + [CHECKSUM_HEADER_CRC16];
      out[..pos + 3] == covered + BigEndian(2, c.crc16(covered))
    ensures forall i :: pos + 3 <= i < out.Length ==> out[i] == old(out[i])
  {
    out[pos] := CHECKSUM_HEADER_CRC16;
    assert out[..pos + 1] == old(out[..pos]) + [CHECKSUM_HEADER_CRC16];
    var crc := c.crc16(out[..pos + 1]);
    Store(out, pos + 1, BigEndian(2, crc));
  }

  lemma {:induction false} BodyGrows(values: Values, k: nat)
    requires k <= 4
    ensures |Body(values, k)| <= |Body(values, 4)|
    decreases 4 - k
  {
    if k < 4 { BodyGrows(values, k + 1); }
  }

  // -------------------------------------------------------------------------
  // Parsing
  // -------------------------------------------------------------------------

  type Parsed = Result<(Frame, nat), ParseError>

  /** One entry at `pos`: either the verdict on the whole frame or the entry and where
      the next one starts. */
  datatype Item = Verdict(r: Parsed) | Next(pos: nat, key: nat, entry: Entry)

  function Scan(c: Checksums, buf: Bytes, max: nat, magic: Magic, pos: nat, entries: Entries): Item
    requires pos <= |buf|
  {
    if |buf| < pos + 1 then Verdict(Err(NeedMore(pos + 1)))
    else if pos + 1 > max then Verdict(Err(FrameTooLarge))
    else
      var header, at := buf[pos], pos + 1;
      var key, width := header % 0x10, WidthOf(header / 0x10 % 4);
      if key == 0x0C then Verdict(Trailer(c, buf, max, header, at, Frame(magic, entries)))
      else if key >= 4 then Verdict(Err(UnsupportedOption))
      else if |buf| < at + width then Verdict(Err(NeedMore(at + width)))
      else if at + width > max then Verdict(Err(FrameTooLarge))
      else
        var v := FromBigEndian(buf[at..at + width]);
        if v == 0 || v >= 0x1_0000_0000_0000_0000 || entries[key].Some? then Verdict(Err(MalformedBody))
        else Next(at + width, key, Entry(header, v))
  }

  function Trailer(c: Checksums, buf: Bytes, max: nat, header: Byte, at: nat, frame: Frame): Parsed
    requires at <= |buf|
  {
    if header != CHECKSUM_HEADER_CRC16 && header != CHECKSUM_HEADER_CRC32 then Err(UnsupportedOption)
    else
      var n := if header == CHECKSUM_HEADER_CRC16 then 2 else 4;
      if |buf| < at + n then Err(NeedMore(at + n))
      else if at + n > max then Err(FrameTooLarge)
      else
        var crc: nat := if n == 2 then c.crc16(buf[..at]) else c.crc32(buf[..at]);
        if BigEndian(n, crc) != buf[at..at + n] then Err(ChecksumErr) else Ok((frame, at + n))
  }

  function ParseFrom(c: Checksums, buf: Bytes, max: nat, magic: Magic, pos: nat, entries: Entries): Parsed
    requires pos <= |buf|
    decreases |buf| - pos
  {
    match Scan(c, buf, max, magic, pos, entries)
    case Verdict(r) => r
    case Next(next, key, entry) => ParseFrom(c, buf, max, magic, next, entries[key := Some(entry)])
  }

  /** The verdict on a buffer: a frame and its length, or why not. */
  function Parse(c: Checksums, buf: Bytes, max: nat): Parsed {
    if |buf| < 4 then Err(NeedMore(4))
    else if max < 4 then Err(FrameTooLarge)
    else if !IsMagic(buf[..4]) then Err(InvalidMagic)
    else ParseFrom(c, buf, max, buf[..4], 4, [None, None, None, None])
  }

  /** `decode_value_`: shifts the bytes into a 64-bit accumulator. */
  method DecodeValue(bytes: Bytes) returns (v: Option<U64>)
    requires |bytes| <= 8
    ensures v == if FromBigEndian(bytes) < 0x1_0000_0000_0000_0000 then Some(FromBigEndian(bytes)) else None
    ensures v.Some?
  {
    var value: nat := 0;
    for i := 0 to |bytes|
      invariant value == FromBigEndian(bytes[..i])
    {
      FromBigEndianBound(bytes[..i]);
      Pow256Grows(i, 7);
      Widths();
      assert bytes[..i + 1][..i] == bytes[..i];
      value := (value * 0x100) % 0x1_0000_0000_0000_0000 + bytes[i];
    }
    assert bytes[..|bytes|] == bytes;
    FromBigEndianBound(bytes);
    Pow256Grows(|bytes|, 8);
    Widths();
    v := Some(value);
  }

  lemma {:induction false} Pow256Grows(i: nat, j: nat)
    requires i <= j
    ensures Pow256(i) <= Pow256(j)
  {
    if i < j { Pow256Grows(i, j - 1); }
  }

  lemma ParseStarts(c: Checksums, buf: Bytes, max: nat)
    ensures Parse(c, buf, max) ==
      if |buf| < 4 then Err(NeedMore(4))
      else if max < 4 then Err(FrameTooLarge)
      else if !IsMagic(buf[..4]) then Err(InvalidMagic)
      else ParseFrom(c, buf, max, buf[..4], 4, [None, None, None, None])
  {
    hide ParseFrom;
  }

  lemma ParseStep(c: Checksums, buf: Bytes, max: nat, magic: Magic, pos: nat, entries: Entries)
    requires pos <= |buf|
    ensures var s := Scan(c, buf, max, magic, pos, entries);
      ParseFrom(c, buf, max, magic, pos, entries) ==
        if s.Verdict? then s.r else ParseFrom(c, buf, max, magic, s.pos, entries[s.key := Some(s.entry)])
  {
    hide FromBigEndian, Trailer;
  }

  /** `parse_frame_`. */
  method ParseFrame(c: Checksums, buf: Bytes, max: nat) returns (r: Parsed)
    ensures r == Parse(c, buf, max)
  {
    ParseStarts(c, buf, max);
    hide Parse, ParseFrom, FromBigEndian, Trailer;
    if |buf| < 4 { return Err(NeedMore(4)); }
    if max < 4 { return Err(FrameTooLarge); }
    var magic: Magic := buf[..4];
    if !IsMagic(magic) { return Err(InvalidMagic); }
    var pos := 4;
    var entries: Entries := [None, None, None, None];
    while true
      invariant 4 <= pos <= |buf|
      invariant Parse(c, buf, max) == ParseFrom(c, buf, max, magic, pos, entries)
      decreases |buf| - pos
    {
      ParseStep(c, buf, max, magic, pos, entries);
      if |buf| < pos + 1 { return Err(NeedMore(pos + 1)); }
      if pos + 1 > max { return Err(FrameTooLarge); }
      var header := buf[pos];
      pos := pos + 1;
      var key := header % 0x10;
      var width := WidthOf(header / 0x10 % 4);
      if key == 0x0C {
        return Trailer(c, buf, max, header, pos, Frame(magic, entries));
      }
      if key >= 4 { return Err(UnsupportedOption); }
      if |buf| < pos + width { return Err(NeedMore(pos + width)); }
      if pos + width > max { return Err(FrameTooLarge); }
      var value := DecodeValue(buf[pos..pos + width]);
      if value.None? { return Err(MalformedBody); }
      pos := pos + width;
      if value.value == 0 { return Err(MalformedBody); }
      if entries[key].Some? { return Err(MalformedBody); }
      entries := entries[key := Some(Entry(header, value.value))];
    }
  }
}
