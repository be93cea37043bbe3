/** The wire form of a handshake frame as sections 4 and 6 of the protocol have it, apart
    from the parser: entries of distinct keys in any order, each in any width that holds
    its value and with any reserved bits, and one of two checksums over all of it. The
    parser accepts just these, and refuses everything else for its own reason. */
module FrameForms {
  import opened Common
  import opened FrameCodec
  import opened FrameLaws

  /** One entry on the wire: its key, the two bits of its type, the two reserved bits. */
  datatype Tlv = Tlv(key: nat, t: nat, top: nat, v: U64)

  ghost predicate Fits(x: Tlv) {
    x.key < 4 && x.t < 4 && x.top < 4 && 0 < x.v < Pow256(WidthOf(x.t))
  }

  function HeaderOf(x: Tlv): int { 0x40 * x.top + 0x10 * x.t + x.key }

  ghost function TlvBytes(x: Tlv): Bytes
    requires Fits(x)
  {
    [HeaderOf(x)] + BigEndian(WidthOf(x.t), x.v)
  }

  /** Entries that fit, no key twice. */
  ghost predicate Listing(xs: seq<Tlv>) {
    && (forall i :: 0 <= i < |xs| ==> Fits(xs[i]))
    && (forall i, j :: 0 <= i < j < |xs| ==> xs[i].key != xs[j].key)
  }

  ghost predicate Mentions(xs: seq<Tlv>, key: nat) {
    exists i :: 0 <= i < |xs| && xs[i].key == key
  }

  ghost function TlvBody(xs: seq<Tlv>): Bytes
    requires Listing(xs)
  {
    if xs == [] then [] else TlvBody(xs[..|xs| - 1]) + TlvBytes(xs[|xs| - 1])
  }

  const NONE: Entries := [None, None, None, None]

  /** What the entries tell, under the header each was sent with. */
  ghost function Told(xs: seq<Tlv>): Entries
    requires Listing(xs)
  {
    if xs == [] then NONE
    else
      var x := xs[|xs| - 1];
      Told(xs[..|xs| - 1])[x.key := Some(Entry(HeaderOf(x), x.v))]
  }

  function TrailerHeader(wide: bool): Byte { if wide then CHECKSUM_HEADER_CRC32 else CHECKSUM_HEADER_CRC16 }

  function CrcLen(wide: bool): nat { if wide then 4 else 2 }

  /** The checksum over everything up to and including its own header. */
  function CrcOf(c: Checksums, covered: Bytes, wide: bool): Bytes {
    var crc: nat := if wide then c.crc32(covered) else c.crc16(covered);
    BigEndian(CrcLen(wide), crc)
  }

  ghost function CoveredBy(magic: Magic, xs: seq<Tlv>, wide: bool): Bytes
    requires Listing(xs)
  {
    magic + TlvBody(xs) + [TrailerHeader(wide)]
  }

  ghost function WireForm(c: Checksums, magic: Magic, xs: seq<Tlv>, wide: bool): Bytes
    requires Listing(xs)
  {
    CoveredBy(magic, xs, wide) + CrcOf(c, CoveredBy(magic, xs, wide), wide)
  }

  // -------------------------------------------------------------------------
  // Past the entries
  // -------------------------------------------------------------------------

  lemma HeaderBits(x: Tlv)
    requires Fits(x)
    ensures 0 <= HeaderOf(x) < 0x100 && HeaderOf(x) % 0x10 == x.key && HeaderOf(x) / 0x10 % 4 == x.t
  {}

  lemma {:induction false} ToldIsMentioned(xs: seq<Tlv>, key: nat)
    requires Listing(xs) && key < 4
    ensures Told(xs)[key].Some? <==> Mentions(xs, key)
  {
    if xs != [] {
      var init, last := xs[..|xs| - 1], xs[|xs| - 1];
      ToldIsMentioned(init, key);
      hide HeaderOf, Pow256;
      if Mentions(init, key) {
        var i :| 0 <= i < |init| && init[i].key == key;
        assert xs[i].key == key;
      }
      if Mentions(xs, key) && key != last.key {
        var i :| 0 <= i < |xs| && xs[i].key == key;
        assert init[i].key == key;
      }
      assert key == last.key ==> xs[|xs| - 1].key == key;
    }
  }

  /** An entry on the wire is scanned for what it is. */
  lemma ScanTlv(c: Checksums, buf: Bytes, max: nat, magic: Magic, pos: nat, entries: Entries, x: Tlv)
    requires Fits(x) && entries[x.key].None? && pos + |TlvBytes(x)| <= |buf| && pos + |TlvBytes(x)| <= max
    requires buf[pos..pos + |TlvBytes(x)|] == TlvBytes(x)
    ensures Scan(c, buf, max, magic, pos, entries) == Next(pos + |TlvBytes(x)|, x.key, Entry(HeaderOf(x), x.v))
  {
    HeaderBits(x);
    BigEndianRoundTrip(WidthOf(x.t), x.v);
    TlvParts(buf, pos, x);
    hide BigEndian, FromBigEndian, Pow256, Trailer, TlvBytes, HeaderOf;
  }

  lemma TlvParts(buf: Bytes, pos: nat, x: Tlv)
    requires Fits(x) && pos + |TlvBytes(x)| <= |buf| && buf[pos..pos + |TlvBytes(x)|] == TlvBytes(x)
    ensures var w := WidthOf(x.t);
      |TlvBytes(x)| == 1 + w && buf[pos] == HeaderOf(x) && buf[pos + 1..pos + 1 + w] == BigEndian(w, x.v)
  {
    hide BigEndian;
    var next := pos + |TlvBytes(x)|;
    assert buf[pos..next][0] == buf[pos];
    assert buf[pos + 1..next] == buf[pos..next][1..];
  }

  ghost predicate StartsWith(buf: Bytes, magic: Magic, xs: seq<Tlv>)
    requires Listing(xs)
  {
    magic + TlvBody(xs) <= buf
  }

  /** Behind any list of entries the parser stands with just what they tell. */
  lemma {:induction false} PastEntries(c: Checksums, buf: Bytes, max: nat, magic: Magic, xs: seq<Tlv>)
    requires Listing(xs) && StartsWith(buf, magic, xs) && 4 + |TlvBody(xs)| <= max
    ensures 4 + |TlvBody(xs)| <= |buf|
    ensures ParseFrom(c, buf, max, magic, 4, NONE)
         == ParseFrom(c, buf, max, magic, 4 + |TlvBody(xs)|, Told(xs))
    decreases |xs|
  {
    if xs != [] {
      var init, x := xs[..|xs| - 1], xs[|xs| - 1];
      LastEntry(buf, magic, xs);
      PastEntries(c, buf, max, magic, init);
      ToldIsMentioned(init, x.key);
      hide Scan, TlvBytes;
      ScanTlv(c, buf, max, magic, 4 + |TlvBody(init)|, Told(init), x);
    }
  }

  lemma LastEntry(buf: Bytes, magic: Magic, xs: seq<Tlv>)
    requires Listing(xs) && xs != [] && StartsWith(buf, magic, xs)
    ensures var init, x := xs[..|xs| - 1], xs[|xs| - 1];
      && Listing(init) && StartsWith(buf, magic, init) && Fits(x)
      && |TlvBody(xs)| == |TlvBody(init)| + |TlvBytes(x)| && 4 + |TlvBody(xs)| <= |buf|
      && buf[4 + |TlvBody(init)|..4 + |TlvBody(xs)|] == TlvBytes(x)
  {
    var init, x := xs[..|xs| - 1], xs[|xs| - 1];
    hide TlvBytes, Fits;
    var a, b := magic + TlvBody(init), TlvBytes(x);
    assert magic + TlvBody(xs) == a + b;
    Pieces(buf, a, b);
  }

  lemma Pieces(buf: Bytes, a: Bytes, b: Bytes)
    requires a + b <= buf
    ensures a <= buf && |a| + |b| <= |buf| && buf[|a|..|a| + |b|] == b
  {
    assert buf[..|a| + |b|] == a + b;
  }

  // -------------------------------------------------------------------------
  // Acceptance, exactly
  // -------------------------------------------------------------------------

  /** What decides behind the entries `xs`: the header byte that comes next. `rest` is what
      the buffer holds from there on. The verdict on the whole buffer. */
  ghost function Decision(c: Checksums, max: nat, magic: Magic, xs: seq<Tlv>, rest: Bytes): Option<Parsed>
    requires Listing(xs)
  {
    var pos := 4 + |TlvBody(xs)|;
    if rest == [] then Some(Err(NeedMore(pos + 1)))
    else if pos >= max then Some(Err(FrameTooLarge))
    else if rest[0] % 0x10 == 0x0C then
      (if rest[0] != TrailerHeader(false) && rest[0] != TrailerHeader(true) then Some(Err(UnsupportedOption))
       else
         var wide := rest[0] == TrailerHeader(true);
         var end := pos + 1 + CrcLen(wide);
         if |rest| < 1 + CrcLen(wide) then Some(Err(NeedMore(end)))
         else if end > max then Some(Err(FrameTooLarge))
         else if rest[1..1 + CrcLen(wide)] != CrcOf(c, CoveredBy(magic, xs, wide), wide) then Some(Err(ChecksumErr))
         else Some(Ok((Frame(magic, Told(xs)), end))))
    else if rest[0] % 0x10 >= 4 then Some(Err(UnsupportedOption))
    else
      var w := WidthOf(rest[0] / 0x10 % 4);
      if |rest| < 1 + w then Some(Err(NeedMore(pos + 1 + w)))
      else if pos + 1 + w > max then Some(Err(FrameTooLarge))
      else if FromBigEndian(rest[1..1 + w]) == 0 || Mentions(xs, rest[0] % 0x10) then Some(Err(MalformedBody))
      else None
  }

  /** The parser decides so, behind any entries: too short, too large, an unknown key or
      trailer, a wrong checksum, a zero or a second value, or the frame. */
  lemma DecidesSo(c: Checksums, max: nat, magic: Magic, xs: seq<Tlv>, rest: Bytes)
    requires Listing(xs) && IsMagic(magic) && 4 + |TlvBody(xs)| <= max
    ensures Decision(c, max, magic, xs, rest).Some? ==>
      Parse(c, magic + TlvBody(xs) + rest, max) == Decision(c, max, magic, xs, rest).value
  {
    var front := magic + TlvBody(xs);
    var buf := front + rest;
    assert buf[..4] == magic && StartsWith(buf, magic, xs);
    PastEntries(c, buf, max, magic, xs);
    hide TlvBody, Told, Scan, Decision;
    if rest != [] && rest[0] % 0x10 == 0x0C {
      TrailerDecides(c, max, magic, xs, rest);
    } else {
      EntryDecides(c, max, magic, xs, rest);
    }
  }

  lemma TrailerDecides(c: Checksums, max: nat, magic: Magic, xs: seq<Tlv>, rest: Bytes)
    requires Listing(xs) && rest != [] && rest[0] % 0x10 == 0x0C
    ensures var front := magic + TlvBody(xs);
      Decision(c, max, magic, xs, rest).Some? &&
      Scan(c, front + rest, max, magic, |front|, Told(xs)) == Verdict(Decision(c, max, magic, xs, rest).value)
  {
    var front := magic + TlvBody(xs);
    Behind(front, rest, 2);
    Behind(front, rest, 4);
    hide TlvBody, Told, BigEndian, FromBigEndian;
  }

  lemma EntryDecides(c: Checksums, max: nat, magic: Magic, xs: seq<Tlv>, rest: Bytes)
    requires Listing(xs) && (rest == [] || rest[0] % 0x10 != 0x0C)
    ensures var front := magic + TlvBody(xs);
      Decision(c, max, magic, xs, rest).Some? ==>
        Scan(c, front + rest, max, magic, |front|, Told(xs)) == Verdict(Decision(c, max, magic, xs, rest).value)
  {
    var front := magic + TlvBody(xs);
    if rest != [] { Behind(front, rest, WidthOf(rest[0] / 0x10 % 4)); }
    if rest != [] && rest[0] % 0x10 < 4 {
      ToldIsMentioned(xs, rest[0] % 0x10);
      SmallEnough(rest);
    }
    hide TlvBody, Told, BigEndian, FromBigEndian, Trailer, Mentions, CrcOf;
  }

  /** What stands behind `front`: one byte and the `n` bytes after it. */
  lemma Behind(front: Bytes, rest: Bytes, n: nat)
    requires rest != []
    ensures (front + rest)[|front|] == rest[0] && (front + rest)[..|front| + 1] == front + [rest[0]]
    ensures n < |rest| ==> (front + rest)[|front| + 1..|front| + 1 + n] == rest[1..1 + n]
  {}

  lemma SmallEnough(rest: Bytes)
    requires rest != []
    ensures var w := WidthOf(rest[0] / 0x10 % 4);
      |rest| >= 1 + w ==> FromBigEndian(rest[1..1 + w]) < 0x1_0000_0000_0000_0000
  {
    var w := WidthOf(rest[0] / 0x10 % 4);
    if |rest| >= 1 + w {
      FromBigEndianBound(rest[1..1 + w]);
      Widths();
    }
  }

  lemma Reassemble(magic: Magic, xs: seq<Tlv>, wide: bool, crc: Bytes, rest: Bytes)
    requires Listing(xs)
    ensures CoveredBy(magic, xs, wide) + crc + rest == magic + TlvBody(xs) + ([TrailerHeader(wide)] + crc + rest)
    ensures |CoveredBy(magic, xs, wide) + crc| == 4 + |TlvBody(xs)| + 1 + |crc|
  {}

  /** Behind the header of a checksum only the checksum decides. */
  lemma ChecksumDecides(c: Checksums, max: nat, magic: Magic, xs: seq<Tlv>, wide: bool, crc: Bytes, rest: Bytes)
    requires Listing(xs) && IsMagic(magic)
    requires |crc| == CrcLen(wide) && |CoveredBy(magic, xs, wide) + crc| <= max
    ensures Parse(c, CoveredBy(magic, xs, wide) + crc + rest, max) ==
      if crc == CrcOf(c, CoveredBy(magic, xs, wide), wide)
      then Ok((Frame(magic, Told(xs)), |CoveredBy(magic, xs, wide) + crc|)) else Err(ChecksumErr)
  {
    var tail := [TrailerHeader(wide)] + crc + rest;
    Reassemble(magic, xs, wide, crc, rest);
    assert tail[1..1 + CrcLen(wide)] == crc;
    hide TlvBody, Told, CrcOf, CoveredBy;
    DecidesSo(c, max, magic, xs, tail);
  }

  /** Any order, any width that fits, any reserved bits, either checksum: the frame is
      accepted with just what its entries tell, and to its last byte. */
  lemma AcceptsAnyForm(c: Checksums, max: nat, magic: Magic, xs: seq<Tlv>, wide: bool, rest: Bytes)
    requires Listing(xs) && IsMagic(magic) && |WireForm(c, magic, xs, wide)| <= max
    ensures Parse(c, WireForm(c, magic, xs, wide) + rest, max)
         == Ok((Frame(magic, Told(xs)), |WireForm(c, magic, xs, wide)|))
  {
    var crc := CrcOf(c, CoveredBy(magic, xs, wide), wide);
    hide TlvBody, Told, CrcOf, CoveredBy;
    ChecksumDecides(c, max, magic, xs, wide, crc, rest);
  }

  /** With any other bytes in place of its checksum it is refused, whichever checksum it
      is, whatever follows. */
  lemma WrongChecksumRefused(c: Checksums, max: nat, magic: Magic, xs: seq<Tlv>, wide: bool, crc: Bytes, rest: Bytes)
    requires Listing(xs) && IsMagic(magic) && |WireForm(c, magic, xs, wide)| <= max
    requires |crc| == CrcLen(wide) && crc != CrcOf(c, CoveredBy(magic, xs, wide), wide)
    ensures Parse(c, CoveredBy(magic, xs, wide) + crc + rest, max) == Err(ChecksumErr)
  {
    assert |CrcOf(c, CoveredBy(magic, xs, wide), wide)| == |crc|;
    hide TlvBody, Told, CrcOf, CoveredBy;
    ChecksumDecides(c, max, magic, xs, wide, crc, rest);
  }

  /** The bytes `wire` are a frame in wire form that tells `frame`. */
  ghost predicate HasForm(c: Checksums, wire: Bytes, frame: Frame, xs: seq<Tlv>, wide: bool) {
    && Listing(xs) && IsMagic(frame.magic)
    && wire == WireForm(c, frame.magic, xs, wide) && frame.entries == Told(xs)
  }

  /** And nothing else is accepted: behind the entries `xs` that were read, whatever the
      parser accepts goes on as the wire form does. */
  lemma {:induction false} AcceptedFrom(c: Checksums, buf: Bytes, max: nat, magic: Magic, xs: seq<Tlv>)
    requires Listing(xs) && IsMagic(magic) && StartsWith(buf, magic, xs) && 4 + |TlvBody(xs)| <= |buf|
    requires ParseFrom(c, buf, max, magic, 4 + |TlvBody(xs)|, Told(xs)).Ok?
    ensures var (frame, n) := ParseFrom(c, buf, max, magic, 4 + |TlvBody(xs)|, Told(xs)).value;
      n <= |buf| && n <= max && exists ys, wide :: HasForm(c, buf[..n], frame, ys, wide)
    decreases |buf| - |TlvBody(xs)|
  {
    var pos := 4 + |TlvBody(xs)|;
    var s := Scan(c, buf, max, magic, pos, Told(xs));
    hide TlvBody, Told, Scan, ScannedTlv, HasForm, StartsWith, Listing;
    if s.Next? {
      ScannedIsTlv(c, buf, max, magic, xs);
      var ys := xs + [ScannedTlv(buf, pos)];
      AcceptedFrom(c, buf, max, magic, ys);
    } else {
      AcceptedTrailer(c, buf, max, magic, xs);
    }
  }

  /** A whole entry stands at `pos`, with a value of 64 bits. */
  predicate EntryAt(buf: Bytes, pos: nat) {
    && pos < |buf| && pos + 1 + WidthOf(buf[pos] / 0x10 % 4) <= |buf|
    && FromBigEndian(buf[pos + 1..pos + 1 + WidthOf(buf[pos] / 0x10 % 4)]) < 0x1_0000_0000_0000_0000
  }

  /** The entry that stands at `pos`. */
  function ScannedTlv(buf: Bytes, pos: nat): Tlv
    requires EntryAt(buf, pos)
  {
    var t := buf[pos] / 0x10 % 4;
    Tlv(buf[pos] % 0x10, t, buf[pos] / 0x40, FromBigEndian(buf[pos + 1..pos + 1 + WidthOf(t)]))
  }

  lemma ScannedIs(c: Checksums, buf: Bytes, max: nat, magic: Magic, pos: nat, entries: Entries)
    requires pos <= |buf| && Scan(c, buf, max, magic, pos, entries).Next?
    ensures EntryAt(buf, pos)
    ensures var x := ScannedTlv(buf, pos); var s := Scan(c, buf, max, magic, pos, entries);
      && x.key < 4 && x.v > 0 && entries[x.key].None?
      && s == Next(pos + 1 + WidthOf(x.t), x.key, Entry(buf[pos], x.v))
  {
    hide FromBigEndian, Trailer;
  }

  lemma ScannedFits(buf: Bytes, pos: nat)
    requires EntryAt(buf, pos) && ScannedTlv(buf, pos).key < 4 && ScannedTlv(buf, pos).v > 0
    ensures var x := ScannedTlv(buf, pos);
      && Fits(x) && HeaderOf(x) == buf[pos] && |TlvBytes(x)| == 1 + WidthOf(x.t)
      && buf[pos..pos + |TlvBytes(x)|] == TlvBytes(x)
  {
    var x := ScannedTlv(buf, pos);
    var s := buf[pos..pos + 1 + WidthOf(x.t)];
    assert s[1..] == buf[pos + 1..pos + 1 + WidthOf(x.t)];
    hide FromBigEndian, Fits, HeaderOf, TlvBytes;
    EntryBack(s, x);
  }

  lemma ScannedIsTlv(c: Checksums, buf: Bytes, max: nat, magic: Magic, xs: seq<Tlv>)
    requires Listing(xs) && StartsWith(buf, magic, xs) && 4 + |TlvBody(xs)| <= |buf|
    requires Scan(c, buf, max, magic, 4 + |TlvBody(xs)|, Told(xs)).Next?
    ensures EntryAt(buf, 4 + |TlvBody(xs)|)
    ensures var pos, s := 4 + |TlvBody(xs)|, Scan(c, buf, max, magic, 4 + |TlvBody(xs)|, Told(xs));
      var x := ScannedTlv(buf, pos); var ys := xs + [x];
      && Listing(ys) && StartsWith(buf, magic, ys) && s.pos == 4 + |TlvBody(ys)| <= |buf|
      && Told(ys) == Told(xs)[s.key := Some(s.entry)]
  {
    var pos := 4 + |TlvBody(xs)|;
    ScannedIs(c, buf, max, magic, pos, Told(xs));
    var x := ScannedTlv(buf, pos);
    hide Scan, Told, TlvBody, TlvBytes, EntryAt, ScannedTlv, Listing, Fits, HeaderOf, Mentions, StartsWith;
    ScannedFits(buf, pos);
    ToldIsMentioned(xs, x.key);
    OneMore(xs, x);
    StartsWithMore(buf, magic, xs, x);
  }

  lemma StartsWithMore(buf: Bytes, magic: Magic, xs: seq<Tlv>, x: Tlv)
    requires Listing(xs) && Fits(x) && Listing(xs + [x]) && StartsWith(buf, magic, xs)
    requires TlvBody(xs + [x]) == TlvBody(xs) + TlvBytes(x)
    requires var pos := 4 + |TlvBody(xs)|;
      pos + |TlvBytes(x)| <= |buf| && buf[pos..pos + |TlvBytes(x)|] == TlvBytes(x)
    ensures StartsWith(buf, magic, xs + [x])
  {
    hide TlvBody, TlvBytes, Listing, Fits;
    var front, bytes := magic + TlvBody(xs), TlvBytes(x);
    assert magic + TlvBody(xs + [x]) == front + bytes;
    assert buf[..|front|] == front;
    assert buf[..|front| + |bytes|] == front + bytes;
  }

  /** One entry more, of a new key. */
  lemma OneMore(xs: seq<Tlv>, x: Tlv)
    requires Listing(xs) && Fits(x) && !Mentions(xs, x.key)
    ensures Listing(xs + [x])
    ensures TlvBody(xs + [x]) == TlvBody(xs) + TlvBytes(x)
    ensures Told(xs + [x]) == Told(xs)[x.key := Some(Entry(HeaderOf(x), x.v))]
  {
    forall i | 0 <= i < |xs| ensures xs[i].key != x.key {}
    hide Fits, TlvBytes;
    assert (xs + [x])[..|xs|] == xs;
  }

  lemma EntryBack(s: Bytes, x: Tlv)
    requires s != [] && x.t == s[0] / 0x10 % 4 && |s| == 1 + WidthOf(x.t)
    requires x.key == s[0] % 0x10 < 4 && x.top == s[0] / 0x40 && x.v == FromBigEndian(s[1..]) > 0
    ensures Fits(x) && HeaderOf(x) == s[0] && TlvBytes(x) == s
  {
    FromBigEndianBound(s[1..]);
    Roundabout(s[1..]);
    hide BigEndian, FromBigEndian, Pow256;
    assert s == [s[0]] + s[1..];
  }

  /** Encoding undoes decoding. */
  lemma {:induction false} Roundabout(s: Bytes)
    ensures BigEndian(|s|, FromBigEndian(s)) == s
  {
    if s != [] {
      var init, last := s[..|s| - 1], s[|s| - 1];
      Roundabout(init);
      var n := FromBigEndian(init);
      assert FromBigEndian(s) == n * 0x100 + last;
      assert (n * 0x100 + last) / 0x100 == n && (n * 0x100 + last) % 0x100 == last;
      assert BigEndian(|s|, n * 0x100 + last) == BigEndian(|init|, n) + [last];
      assert s == init + [last];
    }
  }

  lemma AcceptedTrailer(c: Checksums, buf: Bytes, max: nat, magic: Magic, xs: seq<Tlv>)
    requires Listing(xs) && IsMagic(magic) && StartsWith(buf, magic, xs) && 4 + |TlvBody(xs)| <= |buf|
    requires var s := Scan(c, buf, max, magic, 4 + |TlvBody(xs)|, Told(xs)); s.Verdict? && s.r.Ok?
    ensures var (frame, n) := Scan(c, buf, max, magic, 4 + |TlvBody(xs)|, Told(xs)).r.value;
      n <= |buf| && n <= max && exists ys, wide :: HasForm(c, buf[..n], frame, ys, wide)
  {
    var pos := 4 + |TlvBody(xs)|;
    TrailerIs(c, buf, max, magic, pos, Told(xs));
    var wide := buf[pos] == TrailerHeader(true);
    var n := pos + 1 + CrcLen(wide);
    assert magic + TlvBody(xs) <= buf;
    hide *;
    EndsSo(buf, magic + TlvBody(xs), n);
    TrailerForm(c, buf, n, magic, xs, wide);
  }

  lemma TrailerForm(c: Checksums, buf: Bytes, n: nat, magic: Magic, xs: seq<Tlv>, wide: bool)
    requires Listing(xs) && IsMagic(magic)
    requires var front := magic + TlvBody(xs);
      && |front| < n <= |buf| && buf[|front|] == TrailerHeader(wide) && buf[..|front| + 1] == front + [buf[|front|]]
      && buf[..n] == front + [buf[|front|]] + CrcOf(c, buf[..|front| + 1], wide)
    ensures HasForm(c, buf[..n], Frame(magic, Told(xs)), xs, wide)
  {
    hide TlvBody, Told, CrcOf, Listing, IsMagic;
  }

  lemma EndsSo(buf: Bytes, front: Bytes, n: nat)
    requires front <= buf && |front| < n <= |buf|
    ensures buf[..|front| + 1] == front + [buf[|front|]]
    ensures buf[..n] == front + [buf[|front|]] + buf[|front| + 1..n]
  {}

  lemma TrailerIs(c: Checksums, buf: Bytes, max: nat, magic: Magic, pos: nat, entries: Entries)
    requires pos <= |buf|
    requires var s := Scan(c, buf, max, magic, pos, entries); s.Verdict? && s.r.Ok?
    ensures pos < |buf| && (buf[pos] == TrailerHeader(false) || buf[pos] == TrailerHeader(true))
    ensures var wide := buf[pos] == TrailerHeader(true);
      var n := pos + 1 + CrcLen(wide);
      && n <= |buf| && n <= max && buf[pos + 1..n] == CrcOf(c, buf[..pos + 1], wide)
      && Scan(c, buf, max, magic, pos, entries).r.value == (Frame(magic, entries), n)
  {
    hide BigEndian, FromBigEndian;
  }

  /** Acceptance, exactly: the parser answers with a frame and its length if and only if
      that many bytes, no more than the limit, are a wire form of the frame. So a frame is
      never accepted without one of the two checksums over all that precedes it. */
  lemma AcceptedExactly(c: Checksums, buf: Bytes, max: nat, frame: Frame, n: nat)
    ensures Parse(c, buf, max) == Ok((frame, n)) <==>
      n <= |buf| && n <= max && exists xs, wide :: HasForm(c, buf[..n], frame, xs, wide)
  {
    if Parse(c, buf, max) == Ok((frame, n)) {
      assert buf[..4] + [] == buf[..4] && StartsWith(buf, buf[..4], []);
      AcceptedFrom(c, buf, max, buf[..4], []);
    }
    if n <= |buf| && n <= max && exists xs, wide :: HasForm(c, buf[..n], frame, xs, wide) {
      var xs, wide :| HasForm(c, buf[..n], frame, xs, wide);
      assert buf[..n] + buf[n..] == buf;
      hide WireForm, Told;
      AcceptsAnyForm(c, max, frame.magic, xs, wide, buf[n..]);
    }
  }

  // -------------------------------------------------------------------------
  // What the builder writes
  // -------------------------------------------------------------------------

  /** The entries of the first `k` keys as the builder lists them: in the order of their
      keys, each in its narrowest width, reserved bits clear. */
  function BuiltList(values: Values, k: nat): seq<Tlv>
    requires k <= 4
  {
    if k == 0 then []
    else BuiltList(values, k - 1) + (if values[k - 1].Some? then [BuiltTlv(k - 1, values[k - 1].value)] else [])
  }

  /** That list is one, of keys below `k`, and its bytes are what the builder writes. */
  ghost predicate Builds(xs: seq<Tlv>, values: Values, k: nat)
    requires k <= 4
  {
    Listing(xs) && (forall i :: 0 <= i < |xs| ==> xs[i].key < k) && TlvBody(xs) == Body(values, k)
  }

  lemma {:induction false} BuiltListing(values: Values, k: nat)
    requires k <= 4 && NoZero(values)
    ensures Builds(BuiltList(values, k), values, k)
  {
    if k > 0 {
      BuiltListing(values, k - 1);
      BuiltGrows(values, k);
      if values[k - 1].Some? {
        hide Builds, BuiltList;
        BuiltMore(BuiltList(values, k - 1), values, k);
      } else {
        hide BuiltList, Listing, TlvBody, Body;
      }
    }
  }

  lemma BuiltMore(xs: seq<Tlv>, values: Values, k: nat)
    requires 0 < k <= 4 && values[k - 1].Some? && values[k - 1].value > 0 && Builds(xs, values, k - 1)
    requires Body(values, k) == Body(values, k - 1) + EncodeEntry(k - 1, values[k - 1].value)
    ensures Builds(xs + [BuiltTlv(k - 1, values[k - 1].value)], values, k)
  {
    var x := BuiltTlv(k - 1, values[k - 1].value);
    BuiltFits(k - 1, values[k - 1].value);
    assert !Mentions(xs, x.key);
    hide Listing, TlvBody, Body, EncodeEntry, TlvBytes, Fits, BuiltTlv, Mentions, Told, HeaderOf;
    OneMore(xs, x);
  }

  lemma BuiltGrows(values: Values, k: nat)
    requires 0 < k <= 4
    ensures values[k - 1].Some? ==>
      && BuiltList(values, k) == BuiltList(values, k - 1) + [BuiltTlv(k - 1, values[k - 1].value)]
      && Body(values, k) == Body(values, k - 1) + EncodeEntry(k - 1, values[k - 1].value)
    ensures values[k - 1].None? ==>
      BuiltList(values, k) == BuiltList(values, k - 1) && Body(values, k) == Body(values, k - 1)
  {
    hide EncodeEntry;
  }

  function BuiltTlv(key: nat, v: U64): Tlv { Tlv(key, TypeOf(v), 0, v) }

  lemma BuiltFits(key: nat, v: U64)
    requires key < 4 && v > 0
    ensures var x := BuiltTlv(key, v); x.key == key && Fits(x) && TlvBytes(x) == EncodeEntry(key, v)
  {
    FitsExactly(v, TypeOf(v));
    hide BigEndian, Pow256;
  }

  /** A built frame is one of the wire forms, unless it carries a zero. */
  lemma BuiltForm(c: Checksums, magic: Magic, values: Values)
    requires NoZero(values)
    ensures Listing(BuiltList(values, 4))
    ensures CoveredBy(magic, BuiltList(values, 4), false) == Covered(magic, values)
    ensures WireForm(c, magic, BuiltList(values, 4), false) == Build(c, magic, values)
  {
    BuiltListing(values, 4);
    hide BuiltList, Listing, TlvBody, Body, BigEndian;
  }

  /** A built frame with other bytes in place of the last two is refused for them. */
  lemma BuiltWithWrongChecksum(c: Checksums, magic: Magic, values: Values, crc: Bytes, rest: Bytes, max: nat)
    requires IsMagic(magic) && NoZero(values) && |Build(c, magic, values)| <= max
    requires var f := Build(c, magic, values); |crc| == 2 && crc != f[|f| - 2..]
    ensures var f := Build(c, magic, values); Parse(c, f[..|f| - 2] + crc + rest, max) == Err(ChecksumErr)
  {
    BuiltForm(c, magic, values);
    hide BuiltList, TlvBody, Body, BigEndian, CoveredBy;
    var f, covered := Build(c, magic, values), Covered(magic, values);
    assert f[..|f| - 2] == covered && f[|f| - 2..] == CrcOf(c, covered, false);
    hide Build, Covered, CrcOf, WireForm;
    WrongChecksumRefused(c, max, magic, BuiltList(values, 4), false, crc, rest);
  }
}
