/** The state word of the ring: reader and writer position, the reversion bit, and the
    closed and standby bits of both ends, all in one 64-bit word. */
module RingWord {
  import opened Bits

  const POS_MASK: nat := 0xFFF_FFFF
  const MIN_CAPACITY: nat := 2
  const MAX_CAPACITY: nat := POS_MASK

  const REVERSION: nat := 0x0800_0000_0000_0000
  const RX_STNDBY: nat := 0x1000_0000_0000_0000
  const TX_STNDBY: nat := 0x2000_0000_0000_0000
  const RX_CLOSED: nat := 0x4000_0000_0000_0000
  const TX_CLOSED: nat := 0x8000_0000_0000_0000

  /** The bits that `Pack` overwrites: both positions and the reversion bit. */
  const OWNED: nat := 0x08FF_FFFF_FFFF_FFFF

  type Word = w: nat | w < 0x1_0000_0000_0000_0000

  // -------------------------------------------------------------------------
  // Positions
  // -------------------------------------------------------------------------

  /** Reader and writer position in `[0, cap)`; `rv` says that the writer has passed
      the end of the buffer and the reader has not. */
  datatype IoPos = IoPos(rv: bool, rp: nat, wp: nat, cap: nat) {

    ghost predicate Valid() {
      && MIN_CAPACITY <= cap <= MAX_CAPACITY && rp < cap && wp < cap
      && (if rv then wp <= rp else rp <= wp)
    }

    function DataSize(): nat
      requires 0 < cap && rp <= cap
    {
      if rv && wp == rp then cap else (wp + cap - rp) % cap
    }

    function FreeSize(): nat
      requires 0 < cap && rp <= cap
    {
      cap - DataSize()
    }

    function AdvanceWp(amount: nat): IoPos
      requires 0 < cap
    {
      IoPos(rv || wp + amount >= cap, rp, (wp + amount) % cap, cap)
    }

    function AdvanceRp(amount: nat): IoPos
      requires 0 < cap
    {
      IoPos(rv && rp + amount < cap, (rp + amount) % cap, wp, cap)
    }
  }

  /** `x % cap` within the first two laps. */
  lemma Lap(x: nat, cap: nat)
    requires 0 < cap && x < 2 * cap
    ensures x % cap == if x < cap then x else x - cap
  {
    if x >= cap { assert x == cap * 1 + (x - cap); }
  }

  /** The data size without the remainder: full, empty and both orders of positions. */
  lemma DataSizeIs(p: IoPos)
    requires p.Valid()
    ensures p.DataSize() == if p.rv then p.wp + p.cap - p.rp else p.wp - p.rp
    ensures p.FreeSize() == if p.rv then p.rp - p.wp else p.cap - (p.wp - p.rp)
  {
    Lap(p.wp + p.cap - p.rp, p.cap);
  }

  /** A write commit keeps the positions meaningful and adds exactly `amount` items if
      and only if `amount` is at most the free space. */
  lemma AdvanceWpExact(p: IoPos, amount: nat)
    requires p.Valid() && amount <= p.cap
    ensures var q := p.AdvanceWp(amount);
      (q.Valid() && q.DataSize() == p.DataSize() + amount) <==> amount <= p.FreeSize()
  {
    var q := p.AdvanceWp(amount);
    DataSizeIs(p);
    Lap(p.wp + amount, p.cap);
    if q.Valid() { DataSizeIs(q); }
  }

  /** A read commit removes exactly `amount` items if and only if there are as many. */
  lemma AdvanceRpExact(p: IoPos, amount: nat)
    requires p.Valid() && amount <= p.cap
    ensures var q := p.AdvanceRp(amount);
      (q.Valid() && q.DataSize() + amount == p.DataSize()) <==> amount <= p.DataSize()
  {
    var q := p.AdvanceRp(amount);
    DataSizeIs(p);
    Lap(p.rp + amount, p.cap);
    if q.Valid() { DataSizeIs(q); }
  }

  // -------------------------------------------------------------------------
  // Packing
  // -------------------------------------------------------------------------

  function HasFlag(state: nat, flag: nat): bool {
    And(state, flag) != 0
  }

  function SetFlag(state: nat, flag: nat): nat {
    Or(state, flag)
  }

  function ClearFlag(state: nat, flag: Word): nat {
    And(state, Not64(flag))
  }

  function Not64(a: Word): Word {
    0xFFFF_FFFF_FFFF_FFFF - a
  }

  function Unpack(state: nat, cap: nat): IoPos {
    IoPos(HasFlag(state, REVERSION), And(state, POS_MASK), And(state / 0x1000_0000, POS_MASK), cap)
  }

  function Pack(p: IoPos, state: nat): nat {
    var s := Or(Or(And(state, Not64(OWNED)), p.rp), p.wp * 0x1000_0000);
    if p.rv then SetFlag(s, REVERSION) else ClearFlag(s, REVERSION)
  }

  /** The word field by field. `rsv` are the three bits no flag uses. */
  datatype Fields = Fields(rp: nat, wp: nat, rsv: nat, rv: bool,
                           rxStandby: bool, txStandby: bool, rxClosed: bool, txClosed: bool) {
    ghost predicate Valid() {
      rp <= POS_MASK && wp <= POS_MASK && rsv < 8
    }

    function Pos(cap: nat): IoPos { IoPos(rv, rp, wp, cap) }
  }

  /** The top byte. */
  function Flags(f: Fields): (b: nat)
    ensures f.Valid() ==> b < 0x100
  {
    f.rsv + 8 * Bit(f.rv) + 16 * Bit(f.rxStandby) + 32 * Bit(f.txStandby)
    + 64 * Bit(f.rxClosed) + 128 * Bit(f.txClosed)
  }

  function Encode(f: Fields): (w: nat)
    ensures f.Valid() ==> w < 0x1_0000_0000_0000_0000
  {
    Flags(f) * 0x0100_0000_0000_0000 + (f.wp * 0x1000_0000 + f.rp)
  }

  /** The top byte `b` and the two positions, as fields. */
  function Join(b: nat, wp: nat, rp: nat): (f: Fields)
    requires b < 0x100
    ensures Flags(f) == b && f.wp == wp && f.rp == rp && f.rsv < 8
  {
    var c := if b >= 128 then b - 128 else b;
    var d := if c >= 64 then c - 64 else c;
    var e := if d >= 32 then d - 32 else d;
    var g := if e >= 16 then e - 16 else e;
    Fields(rp, wp, if g >= 8 then g - 8 else g, g >= 8, e >= 16, d >= 32, c >= 64, b >= 128)
  }

  function Decode(w: Word): (f: Fields)
    ensures f.Valid() && Encode(f) == w
  {
    var lo := w % 0x0100_0000_0000_0000;
    Join(w / 0x0100_0000_0000_0000, lo / 0x1000_0000, lo % 0x1000_0000)
  }

  lemma FlagsInjective(f: Fields, g: Fields)
    requires f.Valid() && g.Valid() && Flags(f) == Flags(g)
    ensures f.(rp := g.rp, wp := g.wp) == g
  {}

  /** Fields and words are in bijection. */
  lemma DecodeEncode(f: Fields)
    requires f.Valid()
    ensures Decode(Encode(f)) == f
  {
    var g := Decode(Encode(f));
    FieldsOf(f);
    FieldsOf(g);
    FlagsInjective(f, g);
  }

  lemma FieldsOf(f: Fields)
    requires f.Valid()
    ensures var w, lo := Encode(f), Encode(f) % 0x0100_0000_0000_0000;
      Flags(f) == w / 0x0100_0000_0000_0000 && f.wp == lo / 0x1000_0000 && f.rp == lo % 0x1000_0000
  {
    assert Flags(f) < 0x100;
    hide Flags;
  }

  /** The word of a fresh ring. */
  lemma DecodeZero()
    ensures Decode(0) == Fields(0, 0, 0, false, false, false, false, false)
  {
    hide Decode;
    var f := Fields(0, 0, 0, false, false, false, false, false);
    assert Encode(f) == 0;
    DecodeEncode(f);
  }

  lemma Powers()
    ensures Pow2(28) == 0x1000_0000 && Pow2(56) == 0x0100_0000_0000_0000
    ensures Pow2(59) == REVERSION && Pow2(60) == RX_STNDBY && Pow2(61) == TX_STNDBY
    ensures Pow2(62) == RX_CLOSED && Pow2(63) == TX_CLOSED && Pow2(64) == 0x1_0000_0000_0000_0000
    ensures Pow2(1) == 2 && Pow2(2) == 4 && Pow2(3) == 8 && Pow2(4) == 16 && Pow2(5) == 32 && Pow2(8) == 256
  {
    assert Pow2(7) == 128;
    Pow2Add(7, 7);
    Pow2Add(14, 14);
    Pow2Add(28, 28);
    Pow2Add(3, 56);
  }

  /** Peels one flag off the word: `flag` is bit `k`, `b` its value, `l` all below it. */
  lemma OneFlag(k: nat, flag: Word, h: nat, b: bool, l: nat)
    requires k < 64 && Pow2(k) == flag && l < flag && 2 * h + 1 < Pow2(64 - k)
    ensures var w := (2 * h + Bit(b)) * flag + l;
      && HasFlag(w, flag) == b
      && SetFlag(w, flag) == (2 * h + 1) * flag + l
      && ClearFlag(w, flag) == 2 * h * flag + l
  {
    hide And, Or, Pow2;
    Powers();
    TestBit(k, h, Bit(b), l);
    SetBit(k, h, Bit(b), l);
    ClearBit(64, k, h, Bit(b), l);
  }

  // Each flag operation reads or writes its own field and no other.

  lemma ReversionFlag(f: Fields)
    requires f.Valid()
    ensures HasFlag(Encode(f), REVERSION) == f.rv
    ensures SetFlag(Encode(f), REVERSION) == Encode(f.(rv := true))
    ensures ClearFlag(Encode(f), REVERSION) == Encode(f.(rv := false))
  {
    hide And, Or, Pow2;
    Powers();
    var v, x, c, d := Bit(f.rxStandby), Bit(f.txStandby), Bit(f.rxClosed), Bit(f.txClosed);
    OneFlag(59, REVERSION, v + 2 * x + 4 * c + 8 * d, f.rv, f.rsv * 0x0100_0000_0000_0000 + f.wp * 0x1000_0000 + f.rp);
  }

  lemma RxStandbyFlag(f: Fields)
    requires f.Valid()
    ensures HasFlag(Encode(f), RX_STNDBY) == f.rxStandby
    ensures SetFlag(Encode(f), RX_STNDBY) == Encode(f.(rxStandby := true))
    ensures ClearFlag(Encode(f), RX_STNDBY) == Encode(f.(rxStandby := false))
  {
    hide And, Or, Pow2;
    Powers();
    var u, x, c, d := Bit(f.rv), Bit(f.txStandby), Bit(f.rxClosed), Bit(f.txClosed);
    var low := f.rsv * 0x0100_0000_0000_0000 + f.wp * 0x1000_0000 + f.rp;
    OneFlag(60, RX_STNDBY, x + 2 * c + 4 * d, f.rxStandby, low + u * REVERSION);
  }

  lemma TxStandbyFlag(f: Fields)
    requires f.Valid()
    ensures HasFlag(Encode(f), TX_STNDBY) == f.txStandby
    ensures SetFlag(Encode(f), TX_STNDBY) == Encode(f.(txStandby := true))
    ensures ClearFlag(Encode(f), TX_STNDBY) == Encode(f.(txStandby := false))
  {
    hide And, Or, Pow2;
    Powers();
    var u, v, c, d := Bit(f.rv), Bit(f.rxStandby), Bit(f.rxClosed), Bit(f.txClosed);
    var low := f.rsv * 0x0100_0000_0000_0000 + f.wp * 0x1000_0000 + f.rp;
    OneFlag(61, TX_STNDBY, c + 2 * d, f.txStandby, low + u * REVERSION + v * RX_STNDBY);
  }

  lemma RxClosedFlag(f: Fields)
    requires f.Valid()
    ensures HasFlag(Encode(f), RX_CLOSED) == f.rxClosed
    ensures SetFlag(Encode(f), RX_CLOSED) == Encode(f.(rxClosed := true))
    ensures ClearFlag(Encode(f), RX_CLOSED) == Encode(f.(rxClosed := false))
  {
    hide And, Or, Pow2;
    Powers();
    var u, v, x, d := Bit(f.rv), Bit(f.rxStandby), Bit(f.txStandby), Bit(f.txClosed);
    var low := f.rsv * 0x0100_0000_0000_0000 + f.wp * 0x1000_0000 + f.rp;
    OneFlag(62, RX_CLOSED, d, f.rxClosed, low + u * REVERSION + v * RX_STNDBY + x * TX_STNDBY);
  }

  lemma TxClosedFlag(f: Fields)
    requires f.Valid()
    ensures HasFlag(Encode(f), TX_CLOSED) == f.txClosed
    ensures SetFlag(Encode(f), TX_CLOSED) == Encode(f.(txClosed := true))
    ensures ClearFlag(Encode(f), TX_CLOSED) == Encode(f.(txClosed := false))
  {
    hide And, Or, Pow2;
    Powers();
    var u, v, x, c := Bit(f.rv), Bit(f.rxStandby), Bit(f.txStandby), Bit(f.rxClosed);
    var low := f.rsv * 0x0100_0000_0000_0000 + f.wp * 0x1000_0000 + f.rp;
    OneFlag(63, TX_CLOSED, 0, f.txClosed, low + u * REVERSION + v * RX_STNDBY + x * TX_STNDBY + c * RX_CLOSED);
  }

  /** `Unpack` reads the position fields of the word. */
  lemma UnpackFields(f: Fields, cap: nat)
    requires f.Valid()
    ensures Unpack(Encode(f), cap) == f.Pos(cap)
  {
    hide And, Or, Pow2;
    Powers();
    ReversionFlag(f);
    var hi := Flags(f) * 0x1000_0000 + f.wp;
    assert Encode(f) == hi * 0x1000_0000 + f.rp;
    AndZero(hi);
    AndZero(Flags(f));
    AndSplit(28, hi, f.rp, 0, POS_MASK);
    AndSplit(28, Flags(f), f.wp, 0, POS_MASK);
    AndOnes(28, f.rp);
    AndOnes(28, f.wp);
  }

  /** `Pack` overwrites the position fields and nothing else. */
  lemma PackFields(p: IoPos, f: Fields)
    requires f.Valid() && p.rp <= POS_MASK && p.wp <= POS_MASK
    ensures Pack(p, Encode(f)) == Encode(f.(rv := p.rv, rp := p.rp, wp := p.wp))
  {
    var cleared := f.(rv := false, rp := 0, wp := 0);
    ClearOwned(f);
    OrPositions(p, cleared);
    var placed := cleared.(rp := p.rp, wp := p.wp);
    ReversionFlag(placed);
  }

  lemma ClearOwned(f: Fields)
    requires f.Valid()
    ensures And(Encode(f), Not64(OWNED)) == Encode(f.(rv := false, rp := 0, wp := 0))
  {
    hide And, Or, Pow2;
    Powers();
    var lo := f.wp * 0x1000_0000 + f.rp;
    assert Not64(OWNED) == 0xF7 * 0x0100_0000_0000_0000 + 0;
    AndZero(lo);
    AndSplit(56, Flags(f), lo, 0xF7, 0);
    ClearReversion(f);
  }

  lemma ClearReversion(f: Fields)
    requires f.Valid()
    ensures And(Flags(f), 0xF7) == Flags(f.(rv := false))
  {
    hide And, Or, Pow2;
    Powers();
    var h := Bit(f.rxStandby) + 2 * Bit(f.txStandby) + 4 * Bit(f.rxClosed) + 8 * Bit(f.txClosed);
    assert Not(8, 8) == 0xF7;
    ClearBit(8, 3, h, Bit(f.rv), f.rsv);
  }

  lemma OrPositions(p: IoPos, f: Fields)
    requires f.Valid() && f.rp == 0 && f.wp == 0 && p.rp <= POS_MASK && p.wp <= POS_MASK
    ensures Or(Or(Encode(f), p.rp), p.wp * 0x1000_0000) == Encode(f.(rp := p.rp, wp := p.wp))
  {
    hide And, Or, Pow2;
    Powers();
    var b := Flags(f);
    OrZero(b * 0x1000_0000);
    OrZero(p.rp);
    OrSplit(28, b * 0x1000_0000, 0, 0, p.rp);
    assert Or(Encode(f), p.rp) == b * 0x0100_0000_0000_0000 + p.rp;
    OrZero(b);
    OrZero(p.wp);
    OrSplit(28, b, 0, 0, p.wp);
    assert Or(b * 0x1000_0000, p.wp) == b * 0x1000_0000 + p.wp;
    OrSplit(28, b * 0x1000_0000, p.rp, p.wp, 0);
  }

  /** Packing and unpacking are mutually inverse, and packing keeps the other flags. */
  lemma PackUnpack(p: IoPos, w: Word)
    requires p.rp <= POS_MASK && p.wp <= POS_MASK
    ensures Unpack(Pack(p, w), p.cap) == p
    ensures Pack(Unpack(w, p.cap), w) == w
    ensures forall flag :: flag in [RX_STNDBY, TX_STNDBY, RX_CLOSED, TX_CLOSED] ==>
      HasFlag(Pack(p, w), flag) == HasFlag(w, flag)
  {
    hide And, Or, Pack, Unpack, HasFlag, Decode, Encode;
    var f := Decode(w);
    var g := f.(rv := p.rv, rp := p.rp, wp := p.wp);
    PackFields(p, f);
    UnpackFields(g, p.cap);
    UnpackFields(f, p.cap);
    PackFields(f.Pos(p.cap), f);
    RxStandbyFlag(f); TxStandbyFlag(f); RxClosedFlag(f); TxClosedFlag(f);
    RxStandbyFlag(g); TxStandbyFlag(g); RxClosedFlag(g); TxClosedFlag(g);
  }
}
