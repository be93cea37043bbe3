/** What the frame codec is for: building and parsing undo each other, the parser's
    verdict on a prefix is reliable, and no accepted frame is shorter than the built
    one. */
module FrameLaws {
  import opened Common
  import opened FrameCodec

  // -------------------------------------------------------------------------
  // Round trip
  // -------------------------------------------------------------------------

  /** What parsing leaves of values: each with the header it was sent under. */
  function EntryOf(key: nat, v: Option<U64>): Option<Entry>
    requires key < 4
  {
    if v.None? then None else Some(Entry(0x10 * TypeOf(v.value) + key, v.value))
  }

  /** The entries of the first `k` keys. */
  function EntriesTo(values: Values, k: nat): Entries
    requires k <= 4
  {
    seq(4, key requires 0 <= key < 4 => if key < k then EntryOf(key, values[key]) else None)
  }

  function ValuesOf(entries: Entries): Values {
    seq(4, key requires 0 <= key < 4 => if entries[key].None? then None else Some(entries[key].value.val))
  }

  predicate NoZero(values: Values) {
    forall k :: 0 <= k < 4 ==> values[k] != Some(0)
  }

  lemma EntriesToStep(values: Values, k: nat)
    requires k < 4
    ensures EntriesTo(values, k)[k] == None
    ensures values[k].Some? ==> EntriesTo(values, k + 1) == EntriesTo(values, k)[k := EntryOf(k, values[k])]
    ensures values[k].None? ==> EntriesTo(values, k + 1) == EntriesTo(values, k)
  {}

  /** Where in a built frame the entries from key `k` on start. */
  function At(values: Values, k: nat): nat
    requires k <= 4
  {
    4 + |Body(values, k)|
  }

  lemma {:induction false} BodyPrefix(values: Values, k: nat)
    requires k <= 4
    ensures Body(values, k) <= Body(values, 4)
    decreases 4 - k
  {
    if k < 4 { BodyPrefix(values, k + 1); }
  }

  /** Key `k` of a built frame is scanned for what was put there, whatever follows. */
  lemma ScanBuilt(c: Checksums, buf: Bytes, max: nat, values: Values, k: nat, entries: Entries)
    requires k < 4 && values[k].Some? && entries[k].None?
    requires At(values, k + 1) <= |buf| && At(values, k + 1) <= max
    requires buf[4..At(values, k + 1)] == Body(values, k + 1)
    ensures At(values, k) <= |buf|
    ensures Scan(c, buf, max, buf[..4], At(values, k), entries) ==
      if values[k].value == 0 then Verdict(Err(MalformedBody))
      else Next(At(values, k + 1), k, EntryOf(k, values[k]).value)
  {
    hide Scan, EncodeEntry;
    var encoded := EncodeEntry(k, values[k].value);
    assert |Body(values, k + 1)| == |Body(values, k)| + |encoded|;
    LastPart(buf, At(values, k + 1), Body(values, k), encoded);
    ScanEntry(c, buf, max, At(values, k), k, values[k].value, entries);
  }

  lemma LastPart(buf: Bytes, end: nat, x: Bytes, y: Bytes)
    requires 4 <= end <= |buf| && buf[4..end] == x + y
    ensures 4 + |x| + |y| == end && buf[4 + |x|..end] == y
  {
    assert buf[4 + |x|..end] == buf[4..end][|x|..];
  }

  lemma HeaderParts(t: nat, key: nat)
    requires t < 4 && key < 4
    ensures (0x10 * t + key) % 0x10 == key && (0x10 * t + key) / 0x10 % 4 == t
  {}

  lemma ScanEntry(c: Checksums, buf: Bytes, max: nat, pos: nat, key: nat, v: U64, entries: Entries)
    requires key < 4 && entries[key].None? && 4 <= pos
    requires pos + |EncodeEntry(key, v)| <= |buf| && pos + |EncodeEntry(key, v)| <= max
    requires buf[pos..pos + |EncodeEntry(key, v)|] == EncodeEntry(key, v)
    ensures Scan(c, buf, max, buf[..4], pos, entries) ==
      if v == 0 then Verdict(Err(MalformedBody))
      else Next(pos + |EncodeEntry(key, v)|, key, EntryOf(key, Some(v)).value)
  {
    var t := TypeOf(v);
    FitsExactly(v, t);
    BigEndianRoundTrip(WidthOf(t), v);
    EntryBytes(buf, pos, key, v);
    HeaderParts(t, key);
    hide BigEndian, FromBigEndian, Pow256, Trailer, EncodeEntry;
  }

  lemma EntryBytes(buf: Bytes, pos: nat, key: nat, v: U64)
    requires key < 4 && pos + |EncodeEntry(key, v)| <= |buf|
    requires buf[pos..pos + |EncodeEntry(key, v)|] == EncodeEntry(key, v)
    ensures var t := TypeOf(v); var w := WidthOf(t);
      && |EncodeEntry(key, v)| == 1 + w && buf[pos] == 0x10 * t + key && buf[pos + 1..pos + 1 + w] == BigEndian(w, v)
  {
    hide BigEndian;
    var next := pos + |EncodeEntry(key, v)|;
    assert buf[pos..next][0] == buf[pos];
    assert buf[pos + 1..next] == buf[pos..next][1..];
  }

  /** Where a buffer starts with a built frame. */
  ghost predicate Starts(c: Checksums, buf: Bytes, magic: Magic, values: Values) {
    Build(c, magic, values) <= buf
  }

  lemma StartsIs(c: Checksums, buf: Bytes, magic: Magic, values: Values, k: nat)
    requires Starts(c, buf, magic, values) && k <= 4
    ensures At(values, k) <= At(values, 4) && At(values, 4) + 3 == |Build(c, magic, values)| <= |buf|
    ensures buf[..4] == magic && buf[4..At(values, k)] == Body(values, k)
    ensures buf[..At(values, 4) + 1] == Covered(magic, values)
    ensures buf[At(values, 4) + 1..At(values, 4) + 3] == BigEndian(2, c.crc16(Covered(magic, values)))
  {
    BodyPrefix(values, k);
    var covered := Covered(magic, values);
    assert covered == magic + Body(values, 4) + [CHECKSUM_HEADER_CRC16];
    hide BigEndian, Body, Covered;
    Layout(buf, magic, Body(values, 4), |Body(values, k)|, covered, BigEndian(2, c.crc16(covered)));
  }

  /** The parts of a buffer that starts with `m`, `body`, one byte and `z`. */
  lemma Layout(buf: Bytes, m: Bytes, body: Bytes, n: nat, covered: Bytes, z: Bytes)
    requires covered == m + body + [CHECKSUM_HEADER_CRC16] && covered + z <= buf && n <= |body|
    ensures |covered| == |m| + |body| + 1 && |covered| + |z| <= |buf|
    ensures buf[..|m|] == m && buf[|m|..|m| + n] == body[..n]
    ensures buf[..|covered|] == covered && buf[|covered|..|covered| + |z|] == z
  {}

  /** From key `k` on, the parser of a built frame ends with all values, or with
      `MalformedBody` at the first zero. */
  lemma {:induction false} ParseBuilt(c: Checksums, buf: Bytes, max: nat, magic: Magic, values: Values, k: nat)
    requires Starts(c, buf, magic, values) && |Build(c, magic, values)| <= max && k <= 4
    ensures At(values, k) <= |buf|
    ensures ParseFrom(c, buf, max, magic, At(values, k), EntriesTo(values, k)) ==
      if forall j :: k <= j < 4 ==> values[j] != Some(0)
      then Ok((Frame(magic, EntriesTo(values, 4)), |Build(c, magic, values)|))
      else Err(MalformedBody)
    decreases 4 - k
  {
    hide Build, Starts, Body, Covered, BigEndian, Scan, Trailer, EntriesTo, EntryOf;
    StartsIs(c, buf, magic, values, k);
    if k == 4 {
      EndOfBuilt(c, buf, max, magic, values);
    } else {
      StartsIs(c, buf, magic, values, k + 1);
      EntriesToStep(values, k);
      ParseBuilt(c, buf, max, magic, values, k + 1);
      if values[k].None? {
        assert At(values, k) == At(values, k + 1) by { SkipNone(values, k); }
      } else {
        ScanBuilt(c, buf, max, values, k, EntriesTo(values, k));
        assert EntryOf(k, values[k]).Some? by { SkipNone(values, k); }
      }
    }
  }

  lemma SkipNone(values: Values, k: nat)
    requires k < 4
    ensures values[k].None? ==> Body(values, k + 1) == Body(values, k)
    ensures values[k].Some? ==> EntryOf(k, values[k]).Some?
  {}

  lemma EndOfBuilt(c: Checksums, buf: Bytes, max: nat, magic: Magic, values: Values)
    requires Starts(c, buf, magic, values) && |Build(c, magic, values)| <= max
    ensures At(values, 4) <= |buf|
    ensures Scan(c, buf, max, magic, At(values, 4), EntriesTo(values, 4))
         == Verdict(Ok((Frame(magic, EntriesTo(values, 4)), |Build(c, magic, values)|)))
  {
    hide Build, Starts, Body, BigEndian;
    StartsIs(c, buf, magic, values, 4);
    var at := At(values, 4);
    assert buf[at] == CHECKSUM_HEADER_CRC16 by {
      assert buf[..at + 1][at] == Covered(magic, values)[at];
    }
  }

  /** Round trip: for every magic and every partial vector of values, the built frame,
      alone or followed by anything, parses to the same magic and the same value at
      every key, and the parser takes exactly the built bytes. It does so if and only
      if the magic is one of the four and no value is zero. */
  lemma RoundTrip(c: Checksums, magic: Magic, values: Values, rest: Bytes, max: nat)
    requires |Build(c, magic, values)| <= max
    ensures Parse(c, Build(c, magic, values) + rest, max) ==
      if !IsMagic(magic) then Err(InvalidMagic)
      else if !NoZero(values) then Err(MalformedBody)
      else Ok((Frame(magic, EntriesTo(values, 4)), |Build(c, magic, values)|))
    ensures ValuesOf(EntriesTo(values, 4)) == values
  {
    var buf := Build(c, magic, values) + rest;
    BuiltLength(c, magic, values);
    hide Build, Body;
    assert Build(c, magic, values) <= buf;
    StartsIs(c, buf, magic, values, 0);
    assert EntriesTo(values, 0) == [None, None, None, None];
    assert At(values, 0) == 4 by { EmptyBody(values); }
    ParseBuilt(c, buf, max, magic, values, 0);
    assert ValuesOf(EntriesTo(values, 4)) == values;
  }

  lemma EmptyBody(values: Values)
    ensures Body(values, 0) == []
  {}

  // -------------------------------------------------------------------------
  // Prefixes
  // -------------------------------------------------------------------------

  /** A scan that does not ask for more does not look past what it has. */
  lemma ScanExtends(c: Checksums, p: Bytes, buf: Bytes, max: nat, magic: Magic, pos: nat, entries: Entries)
    requires pos <= |p| && p <= buf
    ensures var s := Scan(c, p, max, magic, pos, entries);
      && ((s.Verdict? && s.r.Err? && s.r.error.NeedMore?) || s == Scan(c, buf, max, magic, pos, entries))
      && (s.Next? ==> pos < s.pos <= |p|)
  {
    assert forall i, j :: 0 <= i <= j <= |p| ==> p[i..j] == buf[i..j];
    assert forall j :: 0 <= j <= |p| ==> p[..j] == buf[..j];
  }

  lemma {:induction false} ParseFromExtends(
      c: Checksums, p: Bytes, buf: Bytes, max: nat, magic: Magic, pos: nat, entries: Entries)
    requires pos <= |p| && p <= buf
    ensures var r := ParseFrom(c, p, max, magic, pos, entries);
      (r.Err? && r.error.NeedMore?) || r == ParseFrom(c, buf, max, magic, pos, entries)
    decreases |p| - pos
  {
    ScanExtends(c, p, buf, max, magic, pos, entries);
    hide Scan;
    var s := Scan(c, p, max, magic, pos, entries);
    if s.Next? {
      ParseFromExtends(c, p, buf, max, magic, s.pos, entries[s.key := Some(s.entry)]);
    }
  }

  /** The verdict on a prefix stands whatever follows, unless it asks for more. */
  lemma StableUnderExtension(c: Checksums, p: Bytes, rest: Bytes, max: nat)
    ensures var r := Parse(c, p, max);
      (r.Err? && r.error.NeedMore?) || r == Parse(c, p + rest, max)
  {
    if |p| >= 4 {
      assert (p + rest)[..4] == p[..4];
      hide ParseFrom;
      ParseFromExtends(c, p, p + rest, max, p[..4], 4, [None, None, None, None]);
    }
  }

  /** What a request for more means. It is for bytes the parser does not have; the frame
      cannot end before them; when they arrive but lie past `max` the frame is too
      large; and as long as they have not all arrived the request stays the same. */
  lemma {:induction false} ParseFromWants(
      c: Checksums, p: Bytes, buf: Bytes, max: nat, magic: Magic, pos: nat, entries: Entries)
    requires pos <= |p| && p <= buf
    ensures var r, all := ParseFrom(c, p, max, magic, pos, entries), ParseFrom(c, buf, max, magic, pos, entries);
      r.Err? && r.error.NeedMore? ==> Wants(r.error.n, |p|, |buf|, max, all)
    ensures var r := ParseFrom(c, p, max, magic, pos, entries);
      r.Ok? ==> pos < r.value.1 <= |p|
    decreases |p| - pos
  {
    ScanWants(c, p, buf, max, magic, pos, entries);
    ScanExtends(c, p, buf, max, magic, pos, entries);
    hide Scan;
    var s := Scan(c, p, max, magic, pos, entries);
    if s.Next? {
      ParseFromWants(c, p, buf, max, magic, s.pos, entries[s.key := Some(s.entry)]);
    } else {
      var t := Scan(c, buf, max, magic, pos, entries);
      if t.Next? { ParseFromEnd(c, buf, max, magic, t.pos, entries[t.key := Some(t.entry)]); }
    }
  }

  ghost predicate Wants(n: nat, have: nat, total: nat, max: nat, all: Parsed) {
    && have < n
    && (total < n ==> all == Err(NeedMore(n)))
    && (total >= n > max ==> all == Err(FrameTooLarge))
    && (all.Ok? ==> n <= all.value.1)
  }

  lemma ScanWants(c: Checksums, p: Bytes, buf: Bytes, max: nat, magic: Magic, pos: nat, entries: Entries)
    requires pos <= |p| && p <= buf
    ensures var s, t := Scan(c, p, max, magic, pos, entries), Scan(c, buf, max, magic, pos, entries);
      && (s.Verdict? && s.r.Err? && s.r.error.NeedMore? ==>
            && |p| < s.r.error.n
            && (|buf| < s.r.error.n ==> t == s)
            && (|buf| >= s.r.error.n > max ==> t == Verdict(Err(FrameTooLarge)))
            && (t.Verdict? && t.r.Ok? ==> s.r.error.n <= t.r.value.1)
            && (t.Next? ==> s.r.error.n <= t.pos))
      && (s.Verdict? && s.r.Ok? ==> pos < s.r.value.1 <= |p|)
      && (t.Next? ==> pos < t.pos <= |buf|)
  {}

  lemma {:induction false} ParseFromEnd(c: Checksums, buf: Bytes, max: nat, magic: Magic, pos: nat, entries: Entries)
    requires pos <= |buf|
    ensures var r := ParseFrom(c, buf, max, magic, pos, entries); r.Ok? ==> pos < r.value.1 <= |buf|
    decreases |buf| - pos
  {
    ScanWants(c, buf, buf, max, magic, pos, entries);
    hide Scan;
    var s := Scan(c, buf, max, magic, pos, entries);
    if s.Next? { ParseFromEnd(c, buf, max, magic, s.pos, entries[s.key := Some(s.entry)]); }
  }

  lemma NeedMoreMeans(c: Checksums, p: Bytes, buf: Bytes, max: nat)
    requires p <= buf && Parse(c, p, max).Err? && Parse(c, p, max).error.NeedMore?
    ensures Wants(Parse(c, p, max).error.n, |p|, |buf|, max, Parse(c, buf, max))
  {
    if |p| >= 4 {
      assert buf[..4] == p[..4];
      hide ParseFrom;
      ParseFromWants(c, p, buf, max, p[..4], 4, [None, None, None, None]);
    } else if |buf| >= 4 && max >= 4 && IsMagic(buf[..4]) {
      ParseFromEnd(c, buf, max, buf[..4], 4, [None, None, None, None]);
    }
  }

  /** On every proper prefix of an accepted frame the parser asks for bytes it does not
      have, and never for bytes past the frame. */
  lemma ProperPrefixWantsMore(c: Checksums, buf: Bytes, max: nat, i: nat)
    requires Parse(c, buf, max).Ok? && i < Parse(c, buf, max).value.1
    ensures Parse(c, buf, max).value.1 <= |buf|
    ensures var r := Parse(c, buf[..i], max);
      r.Err? && r.error.NeedMore? && i < r.error.n <= Parse(c, buf, max).value.1
  {
    AcceptedFits(c, buf, max);
    var p := buf[..i];
    assert p + buf[i..] == buf;
    StableUnderExtension(c, p, buf[i..], max);
    if Parse(c, p, max).Ok? {
      AcceptedFits(c, p, max);
    } else {
      NeedMoreMeans(c, p, buf, max);
    }
  }

  lemma AcceptedFits(c: Checksums, buf: Bytes, max: nat)
    requires Parse(c, buf, max).Ok?
    ensures 4 < Parse(c, buf, max).value.1 <= |buf|
  {
    ParseFromEnd(c, buf, max, buf[..4], 4, [None, None, None, None]);
  }

  // -------------------------------------------------------------------------
  // Bounds
  // -------------------------------------------------------------------------

  function Present(entries: Entries, k: nat): nat
    requires k <= 4
  {
    if k == 0 then 0 else Present(entries, k - 1) + (if entries[k - 1].Some? then 1 else 0)
  }

  /** What the entries cost in their narrowest encodings. */
  function CostOf(entries: Entries): nat {
    Cost(ValuesOf(entries), 4)
  }

  lemma AddEntry(entries: Entries, key: nat, e: Entry)
    requires key < 4 && entries[key].None?
    ensures var more := entries[key := Some(e)];
      && Present(more, 4) == Present(entries, 4) + 1 <= 4
      && CostOf(more) == CostOf(entries) + 1 + WidthOf(TypeOf(e.val))
      && (NoZero(ValuesOf(entries)) && e.val != 0 ==> NoZero(ValuesOf(more)))
  {
    var more := entries[key := Some(e)];
    Unroll(entries);
    Unroll(more);
    hide CostOf, Present;
    assert ValuesOf(more) == ValuesOf(entries)[key := Some(e.val)];
  }

  lemma Unroll(entries: Entries)
    ensures Present(entries, 4) == Tick(entries, 0) + Tick(entries, 1) + Tick(entries, 2) + Tick(entries, 3)
    ensures CostOf(entries) == Fee(entries, 0) + Fee(entries, 1) + Fee(entries, 2) + Fee(entries, 3)
  {
    var v := ValuesOf(entries);
    assert Present(entries, 1) == Tick(entries, 0) && Cost(v, 1) == Fee(entries, 0);
    assert Present(entries, 2) == Tick(entries, 0) + Tick(entries, 1);
    assert Cost(v, 2) == Fee(entries, 0) + Fee(entries, 1);
    assert Cost(v, 4) == Cost(v, 2) + Fee(entries, 2) + Fee(entries, 3);
  }

  function Tick(entries: Entries, k: nat): nat
    requires k < 4
  {
    if entries[k].Some? then 1 else 0
  }

  function Fee(entries: Entries, k: nat): nat
    requires k < 4
  {
    if entries[k].Some? then 1 + WidthOf(TypeOf(entries[k].value.val)) else 0
  }

  /** An entry that was scanned fits the width it came in, and took one byte more. */
  lemma ScanFits(c: Checksums, buf: Bytes, max: nat, magic: Magic, pos: nat, entries: Entries)
    requires pos <= |buf|
    ensures var s := Scan(c, buf, max, magic, pos, entries);
      match s {
        case Next(next, key, e) =>
          && key < 4 && entries[key].None? && e.val != 0
          && pos + 1 + WidthOf(TypeOf(e.val)) <= next <= pos + 9
        case Verdict(Err(NeedMore(n))) => n <= pos + 9
        case Verdict(Ok((f, n))) => f == Frame(magic, entries) && pos + 3 <= n <= max
        case _ => true
      }
  {
    if pos < |buf| {
      var t := buf[pos] / 0x10 % 4;
      if pos + 1 + WidthOf(t) <= |buf| {
        var bytes := buf[pos + 1..pos + 1 + WidthOf(t)];
        FromBigEndianBound(bytes);
        if FromBigEndian(bytes) < 0x1_0000_0000_0000_0000 { FitsExactly(FromBigEndian(bytes), t); }
      }
    }
  }

  lemma {:induction false} ParseFromBounds(c: Checksums, buf: Bytes, max: nat, magic: Magic, pos: nat, entries: Entries)
    requires 4 + CostOf(entries) <= pos <= |buf| && pos <= 4 + 9 * Present(entries, 4) && Present(entries, 4) <= 4
    requires NoZero(ValuesOf(entries))
    ensures match ParseFrom(c, buf, max, magic, pos, entries)
      case Err(NeedMore(n)) => n <= 49
      case Ok((f, n)) =>
        f.magic == magic && NoZero(ValuesOf(f.entries)) && 4 + CostOf(f.entries) + 3 <= n <= max
      case _ => true
    decreases |buf| - pos
  {
    ScanFits(c, buf, max, magic, pos, entries);
    ScanWants(c, buf, buf, max, magic, pos, entries);
    hide Scan, CostOf, Present;
    var s := Scan(c, buf, max, magic, pos, entries);
    if s.Next? {
      AddEntry(entries, s.key, s.entry);
      ParseFromBounds(c, buf, max, magic, s.pos, entries[s.key := Some(s.entry)]);
    }
  }

  lemma ParseBounds(c: Checksums, buf: Bytes, max: nat)
    ensures match Parse(c, buf, max)
      case Err(NeedMore(n)) => n <= 49
      case Ok((f, n)) =>
        IsMagic(f.magic) && NoZero(ValuesOf(f.entries)) && 4 + CostOf(f.entries) + 3 <= n <= max && n <= |buf|
      case _ => true
  {
    var none: Entries := [None, None, None, None];
    if |buf| >= 4 {
      Unroll(none);
      hide ParseFrom;
      ParseFromBounds(c, buf, max, buf[..4], 4, none);
      if Parse(c, buf, max).Ok? { AcceptedFits(c, buf, max); }
    }
  }

  /** Every request of the parser stays below the reader's 64 bytes: four entries of the
      largest width and the largest fifth entry, which only then is refused. */
  lemma RequestsFitTheBuffer(c: Checksums, buf: Bytes, max: nat)
    requires Parse(c, buf, max).Err? && Parse(c, buf, max).error.NeedMore?
    ensures |buf| < Parse(c, buf, max).error.n <= 49 < MAX_HANDSHAKE_FRAME
  {
    ParseBounds(c, buf, max);
    NeedMoreMeans(c, buf, buf, max);
  }

  /** Whatever order, widths and checksum an accepted frame has, building its values
      again takes no more bytes, stays within `max`, and parses to the same values. */
  lemma BuiltIsMinimal(c: Checksums, buf: Bytes, max: nat)
    requires Parse(c, buf, max).Ok?
    ensures var (f, n) := Parse(c, buf, max).value;
      var again := Build(c, f.magic, ValuesOf(f.entries));
      && |again| <= n <= max && NoZero(ValuesOf(f.entries))
      && Parse(c, again, max).Ok? && Parse(c, again, max).value.1 == |again|
      && ValuesOf(Parse(c, again, max).value.0.entries) == ValuesOf(f.entries)
  {
    hide Parse, Build;
    ParseBounds(c, buf, max);
    var (f, n) := Parse(c, buf, max).value;
    BuiltLength(c, f.magic, ValuesOf(f.entries));
    RoundTrip(c, f.magic, ValuesOf(f.entries), [], max);
    assert Build(c, f.magic, ValuesOf(f.entries)) + [] == Build(c, f.magic, ValuesOf(f.entries));
  }

  /** A larger limit changes a verdict only where the smaller one said too large. */
  lemma {:induction false} LargerLimitFrom(
      c: Checksums, buf: Bytes, max: nat, more: nat, magic: Magic, pos: nat, entries: Entries)
    requires pos <= |buf| && max <= more
    ensures var r := ParseFrom(c, buf, max, magic, pos, entries);
      r == Err(FrameTooLarge) || r == ParseFrom(c, buf, more, magic, pos, entries)
    decreases |buf| - pos
  {
    ScanLarger(c, buf, max, more, magic, pos, entries);
    ScanWants(c, buf, buf, max, magic, pos, entries);
    hide Scan;
    var s := Scan(c, buf, max, magic, pos, entries);
    if s.Next? { LargerLimitFrom(c, buf, max, more, magic, s.pos, entries[s.key := Some(s.entry)]); }
  }

  lemma ScanLarger(c: Checksums, buf: Bytes, max: nat, more: nat, magic: Magic, pos: nat, entries: Entries)
    requires pos <= |buf| && max <= more
    ensures var s := Scan(c, buf, max, magic, pos, entries);
      s == Verdict(Err(FrameTooLarge)) || s == Scan(c, buf, more, magic, pos, entries)
  {}

  lemma LargerLimit(c: Checksums, buf: Bytes, max: nat, more: nat)
    requires max <= more
    ensures Parse(c, buf, max) == Err(FrameTooLarge) || Parse(c, buf, max) == Parse(c, buf, more)
  {
    if |buf| >= 4 {
      hide ParseFrom;
      LargerLimitFrom(c, buf, max, more, buf[..4], 4, [None, None, None, None]);
    }
  }
}
