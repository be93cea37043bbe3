/** The preemptive reader-writer lock. One word holds, from the top, the writer-active,
    writer-queued and upgrade-active bits and below them the reader count; it is `b`
    bits wide for any `b` of at least 8. Every guard operation is one atomic
    conditional update of that word (module AtomicFlags): which guards are live is
    nowhere stored, so it is kept here as a ghost multiset. */
module RwLock {
  import opened Bits

  // -------------------------------------------------------------------------
  // The word
  // -------------------------------------------------------------------------

  const MIN_WIDTH: nat := 8

  function WriterActive(b: nat): nat
    requires b >= MIN_WIDTH
  {
    Pow2(b - 1)
  }

  function WriterQueued(b: nat): nat
    requires b >= MIN_WIDTH
  {
    Pow2(b - 2)
  }

  function UpgradeActive(b: nat): nat
    requires b >= MIN_WIDTH
  {
    Pow2(b - 3)
  }

  /** All ones, shifted right by three. */
  function MaxReaders(b: nat): nat {
    (Pow2(b) - 1) / 8
  }

  function Has(s: nat, flag: nat): bool {
    And(s, flag) == flag
  }

  function Without(b: nat, s: nat, flag: nat): nat {
    And(s, if flag < Pow2(b) then Not(b, flag) else 0)
  }

  function Count(b: nat, s: nat): nat {
    And(s, MaxReaders(b))
  }

  function Inc(b: nat, s: nat): nat {
    if s + 1 == Pow2(b) then 0 else s + 1
  }

  function Dec(b: nat, s: nat): nat {
    if s == 0 then Pow2(b) - 1 else s - 1
  }

  /** One atomic update of the word. A refused `try_write` is followed by a separate
      `QueueWriter`. */
  datatype Op =
    | TryRead | TryWrite | QueueWriter | TryUpgradableRead
    | DropReader | DropWriter | DropUpgradable
    | WriteToRead | WriteToUpgradable | UpgradableToRead | UpgradeToWrite

  /** The `expect` of each operation. */
  predicate Admits(b: nat, op: Op, s: nat)
    requires b >= MIN_WIDTH
  {
    match op
    case TryRead => Count(b, s) < MaxReaders(b) && !Has(s, WriterQueued(b)) && !Has(s, WriterActive(b))
    case TryWrite => Count(b, s) == 0 && !Has(s, WriterActive(b))
    case QueueWriter => !Has(s, WriterQueued(b))
    case TryUpgradableRead =>
      !Has(s, WriterQueued(b)) && !Has(s, WriterActive(b)) && !Has(s, UpgradeActive(b))
    case DropReader => Count(b, s) > 0
    case DropUpgradable => Has(s, UpgradeActive(b))
    case UpgradableToRead => Has(s, UpgradeActive(b)) && !Has(s, WriterActive(b)) && Count(b, s) > 0
    case UpgradeToWrite => Has(s, UpgradeActive(b)) && Count(b, s) == 1
    case _ => Has(s, WriterActive(b))
  }

  /** The `desire` of each operation. */
  function Desired(b: nat, op: Op, s: nat): nat
    requires b >= MIN_WIDTH
  {
    match op
    case TryRead => Inc(b, s)
    case TryWrite => Or(s, WriterActive(b))
    case QueueWriter => Or(s, WriterQueued(b))
    case TryUpgradableRead => Inc(b, Or(s, UpgradeActive(b)))
    case DropReader => Dec(b, s)
    case DropWriter => Without(b, Without(b, s, WriterActive(b)), WriterQueued(b))
    case DropUpgradable => Dec(b, Without(b, s, UpgradeActive(b)))
    case WriteToRead => Inc(b, Without(b, s, WriterActive(b)))
    case WriteToUpgradable => Inc(b, Or(Without(b, s, WriterActive(b)), UpgradeActive(b)))
    case UpgradableToRead => Without(b, s, UpgradeActive(b))
    case UpgradeToWrite => Or(s, WriterActive(b))
  }

  // -------------------------------------------------------------------------
  // The word field by field
  // -------------------------------------------------------------------------

  datatype Stat = Stat(wa: bool, wq: bool, ua: bool, r: nat)

  function Encode(b: nat, st: Stat): nat
    requires b >= MIN_WIDTH
  {
    var p := Pow2(b - 3);
    (if st.wa then 4 * p else 0) + (if st.wq then 2 * p else 0) + (if st.ua then p else 0) + st.r
  }

  function Decode(b: nat, w: nat): (st: Stat)
    requires b >= MIN_WIDTH && w < Pow2(b)
    ensures st.r <= MaxReaders(b) && Encode(b, st) == w
  {
    Sizes(b);
    var p := Pow2(b - 3);
    var h := if w >= 4 * p then w - 4 * p else w;
    var g := if h >= 2 * p then h - 2 * p else h;
    Stat(w >= 4 * p, h >= 2 * p, g >= p, if g >= p then g - p else g)
  }

  lemma Sizes(b: nat)
    requires b >= MIN_WIDTH
    ensures var p := Pow2(b - 3);
      && p >= 32 && Pow2(b - 2) == 2 * p && Pow2(b - 1) == 4 * p && Pow2(b) == 8 * p
      && MaxReaders(b) == p - 1
  {
    Pow2Add(5, b - 8);
    assert Pow2(5) == 32;
  }

  /** One flag of the word: bit `k`, with `h` above it and `l` below. */
  lemma OneFlag(b: nat, k: nat, h: nat, x: bool, l: nat)
    requires k < b && l < Pow2(k) && 2 * h + 1 < Pow2(b - k)
    ensures var w, flag := (2 * h + Bit(x)) * Pow2(k) + l, Pow2(k);
      && Has(w, flag) == x && Or(w, flag) == (2 * h + 1) * flag + l
      && Without(b, w, flag) == (2 * h + 0) * flag + l
  {
    hide And, Or, Pow2, Not;
    TestBit(k, h, Bit(x), l);
    SetBit(k, h, Bit(x), l);
    ClearBit(b, k, h, Bit(x), l);
  }

  lemma Scaled(x: bool, y: bool, z: bool, p: nat)
    ensures (2 * (2 * Bit(x) + Bit(y)) + Bit(z)) * p
            == (if x then 4 * p else 0) + (if y then 2 * p else 0) + (if z then p else 0)
  {}

  lemma ActiveBit(b: nat, st: Stat)
    requires b >= MIN_WIDTH && st.r <= MaxReaders(b)
    ensures var s, k := Encode(b, st), WriterActive(b);
      && Has(s, k) == st.wa && Or(s, k) == Encode(b, st.(wa := true))
      && Without(b, s, k) == Encode(b, st.(wa := false))
  {
    assert Pow2(1) == 2;
    Sizes(b);
    hide And, Or, Pow2, Not, MaxReaders, Has, Without;
    OneFlag(b, b - 1, 0, st.wa, Encode(b, st.(wa := false)));
  }

  lemma QueuedBit(b: nat, st: Stat)
    requires b >= MIN_WIDTH && st.r <= MaxReaders(b)
    ensures var s, k := Encode(b, st), WriterQueued(b);
      && Has(s, k) == st.wq && Or(s, k) == Encode(b, st.(wq := true))
      && Without(b, s, k) == Encode(b, st.(wq := false))
  {
    assert Pow2(2) == 4;
    Sizes(b);
    hide And, Or, Pow2, Not, MaxReaders, Has, Without;
    OneFlag(b, b - 2, Bit(st.wa), st.wq, Encode(b, st.(wa := false, wq := false)));
    Doubled(st.wa, st.wq, Pow2(b - 2));
    Doubled(st.wa, true, Pow2(b - 2));
    Doubled(st.wa, false, Pow2(b - 2));
  }

  lemma Doubled(x: bool, y: bool, p: nat)
    ensures (2 * Bit(x) + Bit(y)) * p == (if x then 2 * p else 0) + (if y then p else 0)
  {}

  lemma UpgradeBit(b: nat, st: Stat)
    requires b >= MIN_WIDTH && st.r <= MaxReaders(b)
    ensures var s, k := Encode(b, st), UpgradeActive(b);
      && Has(s, k) == st.ua && Or(s, k) == Encode(b, st.(ua := true))
      && Without(b, s, k) == Encode(b, st.(ua := false))
  {
    assert Pow2(3) == 8;
    Sizes(b);
    hide And, Or, Pow2, Not, MaxReaders, Has, Without;
    var h := 2 * Bit(st.wa) + Bit(st.wq);
    OneFlag(b, b - 3, h, st.ua, st.r);
    Scaled(st.wa, st.wq, st.ua, Pow2(b - 3));
    Scaled(st.wa, st.wq, true, Pow2(b - 3));
    Scaled(st.wa, st.wq, false, Pow2(b - 3));
  }

  lemma CountField(b: nat, st: Stat)
    requires b >= MIN_WIDTH && st.r <= MaxReaders(b)
    ensures Count(b, Encode(b, st)) == st.r
  {
    hide And, Or, Pow2;
    Sizes(b);
    var h := 2 * (2 * Bit(st.wa) + Bit(st.wq)) + Bit(st.ua);
    Scaled(st.wa, st.wq, st.ua, Pow2(b - 3));
    AndSplit(b - 3, h, st.r, 0, MaxReaders(b));
    AndZero(h);
    AndOnes(b - 3, st.r);
  }

  lemma DecodeEncode(b: nat, st: Stat)
    requires b >= MIN_WIDTH && st.r <= MaxReaders(b)
    ensures Encode(b, st) < Pow2(b) && Decode(b, Encode(b, st)) == st
  {
    Sizes(b);
    hide Pow2, MaxReaders;
  }

  /** `Admits` and `Desired` on fields. */
  predicate Allows(op: Op, st: Stat, max: nat) {
    match op
    case TryRead => st.r < max && !st.wq && !st.wa
    case TryWrite => st.r == 0 && !st.wa
    case QueueWriter => !st.wq
    case TryUpgradableRead => !st.wq && !st.wa && !st.ua
    case DropReader => st.r > 0
    case DropUpgradable => st.ua
    case UpgradableToRead => st.ua && !st.wa && st.r > 0
    case UpgradeToWrite => st.ua && st.r == 1
    case _ => st.wa
  }

  function Next(op: Op, st: Stat): Stat
    requires (op.DropReader? || op.DropUpgradable?) ==> st.r > 0
  {
    match op
    case TryRead => st.(r := st.r + 1)
    case TryWrite => st.(wa := true)
    case QueueWriter => st.(wq := true)
    case TryUpgradableRead => st.(ua := true, r := st.r + 1)
    case DropReader => st.(r := st.r - 1)
    case DropWriter => st.(wa := false, wq := false)
    case DropUpgradable => st.(ua := false, r := st.r - 1)
    case WriteToRead => st.(wa := false, r := st.r + 1)
    case WriteToUpgradable => st.(wa := false, ua := true, r := st.r + 1)
    case UpgradableToRead => st.(ua := false)
    case UpgradeToWrite => st.(wa := true)
  }

  predicate Counted(op: Op) {
    op.TryRead? || op.TryUpgradableRead? || op.WriteToRead? || op.WriteToUpgradable?
  }

  lemma AdmitsIs(b: nat, op: Op, st: Stat)
    requires b >= MIN_WIDTH && st.r <= MaxReaders(b)
    ensures Admits(b, op, Encode(b, st)) == Allows(op, st, MaxReaders(b))
  {
    hide And, Or, Pow2, Encode, Has, Count;
    ActiveBit(b, st);
    QueuedBit(b, st);
    UpgradeBit(b, st);
    CountField(b, st);
  }

  lemma DesiredIs(b: nat, op: Op, st: Stat)
    requires b >= MIN_WIDTH && st.r <= MaxReaders(b) && (Counted(op) ==> st.r < MaxReaders(b))
    requires (op.DropReader? || op.DropUpgradable?) ==> st.r > 0
    ensures Desired(b, op, Encode(b, st)) == Encode(b, Next(op, st))
  {
    hide And, Or, Pow2, Encode, Without, Inc, Dec;
    ActiveBit(b, st);
    ActiveBit(b, st.(wa := false));
    QueuedBit(b, st);
    QueuedBit(b, st.(wa := false));
    UpgradeBit(b, st);
    UpgradeBit(b, st.(wa := false));
    CountSteps(b, st);
    CountSteps(b, st.(ua := true));
    CountSteps(b, st.(ua := false));
    CountSteps(b, st.(wa := false));
    CountSteps(b, st.(wa := false, ua := true));
  }

  lemma CountSteps(b: nat, st: Stat)
    requires b >= MIN_WIDTH && st.r <= MaxReaders(b)
    ensures st.r < MaxReaders(b) ==> Inc(b, Encode(b, st)) == Encode(b, st.(r := st.r + 1))
    ensures st.r > 0 ==> Dec(b, Encode(b, st)) == Encode(b, st.(r := st.r - 1))
  {
    Sizes(b);
    hide Pow2, MaxReaders;
  }

  // -------------------------------------------------------------------------
  // Guards
  // -------------------------------------------------------------------------

  /** A live guard. `Upgraded` is a writer obtained from an upgradable reader that is
      still live; when that reader goes, in a consuming upgrade, it is a plain writer. */
  datatype Hold = Reader | Upgradable | Writer | Upgraded

  type Live = multiset<Hold>

  datatype Lock = Lock(word: nat, live: Live)

  /** The word says exactly which guards are live, and a writer excludes every other
      guard except the upgradable reader it came from. */
  ghost predicate Counts(st: Stat, live: Live) {
    && st.r == live[Reader] + live[Upgradable]
    && live[Upgradable] == Bit(st.ua)
    && live[Writer] + live[Upgraded] == Bit(st.wa)
    && (Writer in live ==> live[Reader] == 0 && live[Upgradable] == 0)
    && (Upgraded in live ==> live[Reader] == 0 && live[Upgradable] == 1)
  }

  ghost predicate Accounts(b: nat, s: Lock) {
    b >= MIN_WIDTH && s.word < Pow2(b) && Counts(Decode(b, s.word), s.live)
  }

  /** What ownership and borrows allow: an operation of a guard needs that guard, and an
      upgradable reader that was upgraded in place is out of reach but for the drop
      that ends a consuming upgrade. */
  predicate Enabled(op: Op, live: Live) {
    match op
    case DropReader => Reader in live
    case DropUpgradable => Upgradable in live
    case UpgradableToRead => Upgradable in live && Upgraded !in live
    case UpgradeToWrite => Upgradable in live && Upgraded !in live
    case DropWriter => Writer in live || Upgraded in live
    case WriteToRead => Writer in live || Upgraded in live
    case WriteToUpgradable => Writer in live || Upgraded in live
    case _ => true
  }

  /** The live guards after a successful operation. */
  function After(op: Op, live: Live): Live {
    var writer := if Upgraded in live then Upgraded else Writer;
    match op
    case TryRead => live + multiset{Reader}
    case TryWrite => live + multiset{Writer}
    case QueueWriter => live
    case TryUpgradableRead => live + multiset{Upgradable}
    case DropReader => live - multiset{Reader}
    case DropWriter => live - multiset{writer}
    case DropUpgradable =>
      if Upgraded in live then live - multiset{Upgradable, Upgraded} + multiset{Writer}
      else live - multiset{Upgradable}
    case WriteToRead => live - multiset{writer} + multiset{Reader}
    case WriteToUpgradable => live - multiset{writer} + multiset{Upgradable}
    case UpgradableToRead => live - multiset{Upgradable} + multiset{Reader}
    case UpgradeToWrite => live + multiset{Upgraded}
  }

  function Step(b: nat, s: Lock, op: Op): Lock
    requires b >= MIN_WIDTH
  {
    if Admits(b, op, s.word) then Lock(Desired(b, op, s.word), After(op, s.live)) else s
  }

  /** The two calls that break the accounting: an upgradable reader taken when the
      count is at its maximum, and turning a writer into an upgradable reader while the
      reader it was upgraded from is live. Both can be told from the word. */
  predicate Spoils(b: nat, op: Op, s: nat)
    requires b >= MIN_WIDTH
  {
    || (op.TryUpgradableRead? && Admits(b, op, s) && Count(b, s) == MaxReaders(b))
    || (op.WriteToUpgradable? && Has(s, UpgradeActive(b)))
  }

  lemma CountsNext(b: nat, op: Op, st: Stat, live: Live)
    requires b >= MIN_WIDTH && Counts(st, live) && Enabled(op, live) && Allows(op, st, MaxReaders(b))
    requires !(op.WriteToUpgradable? && st.ua)
    requires (op.DropReader? || op.DropUpgradable?) ==> st.r > 0
    ensures Counts(Next(op, st), After(op, live))
  {}

  /** What the two calls leave behind: at the maximum the count spills over into the
      upgrade bit and that into the queued bit; a nested downgrade leaves two upgradable
      readers behind one bit. */
  lemma SpoiledStep(b: nat, s: Lock, op: Op)
    requires Accounts(b, s) && Enabled(op, s.live) && Spoils(b, op, s.word)
    ensures var s' := Step(b, s, op);
      && !Accounts(b, s')
      && s'.word == Encode(b, if op.TryUpgradableRead? then Stat(false, true, false, 0)
                              else Stat(false, Decode(b, s.word).wq, true, 2))
      && s'.live == After(op, s.live)
  {
    var st := Decode(b, s.word);
    Sizes(b);
    AdmitsIs(b, op, st);
    CountField(b, st);
    UpgradeBit(b, st);
    if op.TryUpgradableRead? {
      hide And, Or, Pow2;
      DecodeEncode(b, Stat(false, true, false, 0));
    } else {
      assert s.live[Upgraded] == 1 && st.r == 1;
      hide Pow2, Encode, Decode;
      DesiredIs(b, op, st);
      assert After(op, s.live)[Upgradable] == 2;
    }
  }

  /** Each operation keeps the accounting exactly when it is not one of those two. */
  lemma StepKeepsExactly(b: nat, s: Lock, op: Op)
    requires Accounts(b, s) && Enabled(op, s.live)
    ensures Accounts(b, Step(b, s, op)) <==> !Spoils(b, op, s.word)
  {
    if Spoils(b, op, s.word) {
      SpoiledStep(b, s, op);
    } else if Admits(b, op, s.word) {
      StepIsNext(b, s, op);
      hide Encode, Decode, Pow2, MaxReaders;
      CountsNext(b, op, Decode(b, s.word), s.live);
    }
  }

  lemma StepIsNext(b: nat, s: Lock, op: Op)
    requires Accounts(b, s) && Enabled(op, s.live) && Admits(b, op, s.word) && !Spoils(b, op, s.word)
    ensures var st := Decode(b, s.word);
      && Allows(op, st, MaxReaders(b)) && (op.DropReader? || op.DropUpgradable? ==> st.r > 0)
      && !(op.WriteToUpgradable? && st.ua)
      && Desired(b, op, s.word) < Pow2(b) && Decode(b, Desired(b, op, s.word)) == Next(op, st)
  {
    hide Encode, Decode, Pow2, MaxReaders, Has, Count, Desired;
    var st := Decode(b, s.word);
    AdmitsIs(b, op, st);
    CountField(b, st);
    UpgradeBit(b, st);
    HoldsFit(b, st, s.live, op);
    DesiredIs(b, op, st);
    DecodeEncode(b, Next(op, st));
  }

  /** A guard that is live is in the count, and a writer leaves room in it. */
  lemma HoldsFit(b: nat, st: Stat, live: Live, op: Op)
    requires b >= MIN_WIDTH && Counts(st, live) && Enabled(op, live) && Allows(op, st, MaxReaders(b))
    requires st.r <= MaxReaders(b) && !(op.TryUpgradableRead? && st.r == MaxReaders(b))
    ensures Counted(op) ==> st.r < MaxReaders(b)
    ensures op.DropReader? || op.DropUpgradable? ==> st.r > 0
    ensures Next(op, st).r <= MaxReaders(b)
  {
    Sizes(b);
  }

  // -------------------------------------------------------------------------
  // Whole runs
  // -------------------------------------------------------------------------

  /** An interleaving of guard operations that ownership allows and in which nobody
      makes either of the two spoiling calls. */
  ghost predicate Legal(b: nat, s: Lock, ops: seq<Op>)
    requires b >= MIN_WIDTH
    decreases |ops|
  {
    ops == [] ||
    (Enabled(ops[0], s.live) && !Spoils(b, ops[0], s.word) && Legal(b, Step(b, s, ops[0]), ops[1..]))
  }

  ghost function Run(b: nat, s: Lock, ops: seq<Op>): Lock
    requires b >= MIN_WIDTH
    decreases |ops|
  {
    if ops == [] then s else Run(b, Step(b, s, ops[0]), ops[1..])
  }

  lemma {:induction false} RunKeeps(b: nat, s: Lock, ops: seq<Op>)
    requires Accounts(b, s) && Legal(b, s, ops)
    ensures Accounts(b, Run(b, s, ops))
    decreases |ops|
  {
    if ops != [] {
      StepKeepsExactly(b, s, ops[0]);
      RunKeeps(b, Step(b, s, ops[0]), ops[1..]);
    }
  }

  /** Mutual exclusion and accounting over every run from a fresh lock, for every width:
      the packed count is the number of readers and upgradable readers, the two active
      bits say whether an upgradable reader and a writer are live, there is at most one
      of each, and a writer has nobody beside it but the reader it was upgraded from. */
  lemma AllRuns(b: nat, ops: seq<Op>)
    requires b >= MIN_WIDTH && Legal(b, Lock(0, multiset{}), ops)
    ensures var s := Run(b, Lock(0, multiset{}), ops);
      && Count(b, s.word) == s.live[Reader] + s.live[Upgradable]
      && Has(s.word, UpgradeActive(b)) == (s.live[Upgradable] == 1)
      && Has(s.word, WriterActive(b)) == (s.live[Writer] + s.live[Upgraded] == 1)
      && s.live[Upgradable] <= 1 && s.live[Writer] + s.live[Upgraded] <= 1
      && (Writer in s.live ==> s.live == multiset{Writer})
      && (Upgraded in s.live ==> s.live == multiset{Upgradable, Upgraded})
  {
    var start := Lock(0, multiset{});
    FreshAccounts(b);
    hide Pow2, Decode, Encode, MaxReaders, Has, Count;
    RunKeeps(b, start, ops);
    var s := Run(b, start, ops);
    StatusReads(b, s.word);
    OnlyHolds(Decode(b, s.word), s.live);
  }

  lemma StatusReads(b: nat, w: nat)
    requires b >= MIN_WIDTH && w < Pow2(b)
    ensures var st := Decode(b, w);
      && Has(w, WriterActive(b)) == st.wa && Has(w, WriterQueued(b)) == st.wq
      && Has(w, UpgradeActive(b)) == st.ua && Count(b, w) == st.r
  {
    hide Pow2, Decode, Encode, MaxReaders, Has, Count;
    var st := Decode(b, w);
    ActiveBit(b, st);
    QueuedBit(b, st);
    UpgradeBit(b, st);
    CountField(b, st);
  }

  lemma OnlyHolds(st: Stat, live: Live)
    requires Counts(st, live)
    ensures Writer in live ==> live == multiset{Writer}
    ensures Upgraded in live ==> live == multiset{Upgradable, Upgraded}
    ensures st.r == 0 && !st.wa <==> live == multiset{}
    ensures st.ua && st.r == 1 && !st.wa <==> live == multiset{Upgradable}
  {
    if Writer in live { SameHolds(live, multiset{Writer}); }
    if Upgraded in live { SameHolds(live, multiset{Upgradable, Upgraded}); }
    if st.r == 0 && !st.wa { SameHolds(live, multiset{}); }
    if st.ua && st.r == 1 && !st.wa { SameHolds(live, multiset{Upgradable}); }
  }

  /** Whether an attempt succeeds, in terms of the guards: a writer needs the lock to
      itself, an upgrade needs every other reader gone; drops and downgrades always
      succeed, so the branches that say so never fail. */
  lemma AdmittedExactly(b: nat, s: Lock, op: Op)
    requires Accounts(b, s) && Enabled(op, s.live)
    ensures var noWriter := Writer !in s.live && Upgraded !in s.live;
      var queued := Has(s.word, WriterQueued(b));
      Admits(b, op, s.word) <==>
        match op
        case TryRead => noWriter && !queued && |s.live| < MaxReaders(b)
        case TryWrite => s.live == multiset{}
        case QueueWriter => !queued
        case TryUpgradableRead => noWriter && !queued && Upgradable !in s.live
        case UpgradeToWrite => s.live == multiset{Upgradable}
        case _ => true
  {
    hide Pow2, Decode, Encode, MaxReaders, Has, Count, Admits;
    var st := Decode(b, s.word);
    AdmitsIs(b, op, st);
    StatusReads(b, s.word);
    Holders(s.live);
    OnlyHolds(st, s.live);
  }

  lemma SameHolds(m: Live, n: Live)
    requires m[Reader] == n[Reader] && m[Upgradable] == n[Upgradable]
    requires m[Writer] == n[Writer] && m[Upgraded] == n[Upgraded]
    ensures m == n
  {
    forall h ensures m[h] == n[h] {
      match h { case Reader => case Upgradable => case Writer => case Upgraded => }
    }
  }

  lemma Holders(live: Live)
    ensures |live| == live[Reader] + live[Upgradable] + live[Writer] + live[Upgraded]
  {
    var m1 := live[Reader := 0];
    var m2 := m1[Upgradable := 0];
    var m3 := m2[Writer := 0];
    var m4 := m3[Upgraded := 0];
    SameHolds(m4, multiset{});
    assert |m4| == 0;
    assert |m3| == live[Upgraded] && |m2| == |m3| + live[Writer];
    assert |m1| == |m2| + live[Upgradable] && |live| == |m1| + live[Reader];
  }

  /** While a writer is queued no new reader gets in, whoever it is and however long the
      run, until a writer guard is dropped: no other operation clears the bit. */
  lemma {:induction false} QueuedShutsOut(b: nat, s: Lock, ops: seq<Op>)
    requires Accounts(b, s) && Legal(b, s, ops) && Has(s.word, WriterQueued(b))
    requires DropWriter !in ops
    ensures Has(Run(b, s, ops).word, WriterQueued(b))
    ensures !Admits(b, TryRead, Run(b, s, ops).word) && !Admits(b, TryUpgradableRead, Run(b, s, ops).word)
    decreases |ops|
  {
    if ops != [] {
      StepKeepsExactly(b, s, ops[0]);
      KeepsQueued(b, s, ops[0]);
      QueuedShutsOut(b, Step(b, s, ops[0]), ops[1..]);
    }
  }

  lemma KeepsQueued(b: nat, s: Lock, op: Op)
    requires Accounts(b, s) && Enabled(op, s.live) && !Spoils(b, op, s.word)
    requires Has(s.word, WriterQueued(b)) && !op.DropWriter?
    ensures Has(Step(b, s, op).word, WriterQueued(b))
  {
    if Admits(b, op, s.word) {
      StepIsNext(b, s, op);
      hide Pow2, Decode, Encode, MaxReaders, Has, Count, Desired;
      QueuedBit(b, Decode(b, s.word));
      QueuedBit(b, Next(op, Decode(b, s.word)));
    }
  }

  /** Who changes the queued bit, exactly: it is set by a writer that queues, cleared by a
      writer guard that is dropped, and kept by everybody else, downgrades included. */
  lemma QueuedAfter(b: nat, s: Lock, op: Op)
    requires Accounts(b, s) && Enabled(op, s.live) && !Spoils(b, op, s.word)
    ensures Has(Step(b, s, op).word, WriterQueued(b)) <==>
      op.QueueWriter? || (!op.DropWriter? && Has(s.word, WriterQueued(b)))
  {
    AdmittedExactly(b, s, op);
    StatusReads(b, s.word);
    if Admits(b, op, s.word) {
      StepIsNext(b, s, op);
      hide Pow2, Decode, Encode, MaxReaders, Has, Count, Desired, Admits;
      StatusReads(b, Desired(b, op, s.word));
    }
  }

  /** A writer that goes lets everybody in again, those that queued behind it and those
      that a queued writer kept out; only the upgradable reader that it may have come from
      still keeps out writers and its like. */
  lemma WriterDropAdmits(b: nat, s: Lock)
    requires Accounts(b, s) && (Writer in s.live || Upgraded in s.live)
    ensures var s' := Step(b, s, DropWriter);
      && Accounts(b, s') && s'.live == (if Upgraded in s.live then multiset{Upgradable} else multiset{})
      && Admits(b, TryRead, s'.word)
      && (Admits(b, TryUpgradableRead, s'.word) <==> Upgraded !in s.live)
      && (Admits(b, TryWrite, s'.word) <==> Upgraded !in s.live)
  {
    var s' := Step(b, s, DropWriter);
    QueuedAfter(b, s, DropWriter);
    AdmittedExactly(b, s, DropWriter);
    StepKeepsExactly(b, s, DropWriter);
    OnlyHolds(Decode(b, s.word), s.live);
    assert MaxReaders(b) > 1 by { Sizes(b); }
    hide Pow2, Decode, Encode, MaxReaders, Has, Count, Desired, Admits;
    assert s'.live == (if Upgraded in s.live then multiset{Upgradable} else multiset{});
    AdmittedExactly(b, s', TryRead);
    AdmittedExactly(b, s', TryUpgradableRead);
    AdmittedExactly(b, s', TryWrite);
  }

  /** The nested downgrade, to the end: both upgradable guards are dropped, the second
      drop is refused, and the word is that of a lock with one reader, whom nobody
      holds. */
  lemma NestedDowngradeLeaks(b: nat, s: Lock)
    requires Accounts(b, s) && s.live == multiset{Upgradable, Upgraded}
    ensures Spoils(b, WriteToUpgradable, s.word)
    ensures var t := Step(b, Step(b, s, WriteToUpgradable), DropUpgradable);
      !Admits(b, DropUpgradable, t.word) && Accounts(b, Lock(t.word, multiset{Reader}))
  {
    hide Pow2, Decode, Encode, MaxReaders, Has, Count, Desired, Admits;
    StatusReads(b, s.word);
    SpoiledStep(b, s, WriteToUpgradable);
    var st := Stat(false, Decode(b, s.word).wq, true, 2);
    var t := Step(b, s, WriteToUpgradable);
    assert MaxReaders(b) > 2 by { Sizes(b); }
    AdmitsIs(b, DropUpgradable, st);
    DesiredIs(b, DropUpgradable, st);
    AdmitsIs(b, DropUpgradable, Next(DropUpgradable, st));
    DecodeEncode(b, Next(DropUpgradable, st));
  }

  /** The lock as its word has it: with one reader more than there is. */
  function WithLeak(s: Lock): Lock { Lock(s.word, s.live + multiset{Reader}) }

  lemma LeakStep(b: nat, s: Lock, op: Op)
    requires b >= MIN_WIDTH && Enabled(op, s.live)
    ensures Enabled(op, WithLeak(s).live) && WithLeak(Step(b, s, op)) == Step(b, WithLeak(s), op)
  {
    AfterLeak(op, s.live);
    hide After, Admits, Desired;
  }

  /** One reader more commutes with every operation on the others. */
  lemma AfterLeak(op: Op, live: Live)
    requires Enabled(op, live)
    ensures Enabled(op, live + multiset{Reader})
    ensures After(op, live + multiset{Reader}) == After(op, live) + multiset{Reader}
  {
    assert op.DropUpgradable? ==> Upgradable in live;
    hide Enabled, After;
    match op
    case DropReader => LeakDrops(op, live);
    case DropWriter => LeakDrops(op, live);
    case DropUpgradable => LeakUpgradable(live);
    case WriteToRead => LeakTurns(op, live);
    case WriteToUpgradable => LeakTurns(op, live);
    case UpgradableToRead => LeakTurns(op, live);
    case _ => LeakAdds(op, live);
  }

  lemma LeakAdds(op: Op, live: Live)
    requires Enabled(op, live) && (op.TryRead? || op.TryWrite? || op.QueueWriter? || op.TryUpgradableRead? || op.UpgradeToWrite?)
    ensures Enabled(op, live + multiset{Reader})
    ensures After(op, live + multiset{Reader}) == After(op, live) + multiset{Reader}
  {
    SameHolds(After(op, live + multiset{Reader}), After(op, live) + multiset{Reader});
  }

  lemma LeakDrops(op: Op, live: Live)
    requires Enabled(op, live) && (op.DropReader? || op.DropWriter?)
    ensures Enabled(op, live + multiset{Reader})
    ensures After(op, live + multiset{Reader}) == After(op, live) + multiset{Reader}
  {
    var taken := if op.DropReader? then Reader else if Upgraded in live then Upgraded else Writer;
    assert live + multiset{Reader} - multiset{taken} == live - multiset{taken} + multiset{Reader};
  }

  lemma LeakUpgradable(live: Live)
    requires Upgradable in live
    ensures Enabled(DropUpgradable, live + multiset{Reader})
    ensures After(DropUpgradable, live + multiset{Reader}) == After(DropUpgradable, live) + multiset{Reader}
  {
    var taken := if Upgraded in live then multiset{Upgradable, Upgraded} else multiset{Upgradable};
    assert taken <= live;
    assert live + multiset{Reader} - taken == live - taken + multiset{Reader};
  }

  lemma LeakTurns(op: Op, live: Live)
    requires Enabled(op, live) && (op.WriteToRead? || op.WriteToUpgradable? || op.UpgradableToRead?)
    ensures Enabled(op, live + multiset{Reader})
    ensures After(op, live + multiset{Reader}) == After(op, live) + multiset{Reader}
  {
    var taken := if op.UpgradableToRead? then Upgradable else if Upgraded in live then Upgraded else Writer;
    var given := if op.WriteToUpgradable? then Upgradable else Reader;
    Exchange(live, taken, given);
  }

  lemma Exchange(live: Live, taken: Hold, given: Hold)
    requires taken in live
    ensures live + multiset{Reader} - multiset{taken} + multiset{given}
         == live - multiset{taken} + multiset{given} + multiset{Reader}
  {}

  /** With a reader in the word whom nobody holds no writer gets in, whatever the guards
      do that there really are: nobody can drop that reader. */
  lemma {:induction false} LeakedReaderStays(b: nat, s: Lock, ops: seq<Op>)
    requires Accounts(b, WithLeak(s)) && Legal(b, s, ops)
    ensures Accounts(b, WithLeak(Run(b, s, ops))) && !Admits(b, TryWrite, Run(b, s, ops).word)
    decreases |ops|
  {
    if ops == [] {
      AdmittedExactly(b, WithLeak(s), TryWrite);
    } else {
      LeakStep(b, s, ops[0]);
      StepKeepsExactly(b, WithLeak(s), ops[0]);
      hide Accounts, Step, Admits;
      LeakedReaderStays(b, Step(b, s, ops[0]), ops[1..]);
    }
  }

  /** From the nested downgrade through the drops of both upgradable guards to any later
      run from a lock that nobody holds: no writer ever gets in, as long as nobody takes
      an upgradable reader at the maximum count. */
  lemma NestedDowngradeBarsWriters(b: nat, s: Lock, ops: seq<Op>)
    requires Accounts(b, s) && s.live == multiset{Upgradable, Upgraded}
    requires var t := Step(b, Step(b, s, WriteToUpgradable), DropUpgradable);
      Legal(b, Lock(Step(b, t, DropUpgradable).word, multiset{}), ops)
    ensures var t := Step(b, Step(b, s, WriteToUpgradable), DropUpgradable);
      !Admits(b, TryWrite, Run(b, Lock(Step(b, t, DropUpgradable).word, multiset{}), ops).word)
  {
    NestedDowngradeLeaks(b, s);
    var t := Step(b, Step(b, s, WriteToUpgradable), DropUpgradable);
    var none := Lock(Step(b, t, DropUpgradable).word, multiset{});
    assert none.word == t.word;
    assert none.live + multiset{Reader} == multiset{Reader};
    hide Accounts, Step, Admits, Run, Legal;
    LeakedReaderStays(b, none, ops);
  }

  /** `n` readers one after the other. */
  function Reads(n: nat): seq<Op> { seq(n, _ => TryRead) }

  lemma {:induction false} ReadsFill(b: nat, s: Lock, k: nat, n: nat)
    requires b >= MIN_WIDTH && k + n <= MaxReaders(b)
    requires s == Lock(Encode(b, Stat(false, false, false, k)), multiset{}[Reader := k])
    ensures Legal(b, s, Reads(n))
    ensures Run(b, s, Reads(n)) == Lock(Encode(b, Stat(false, false, false, k + n)), multiset{}[Reader := k + n])
    decreases n
  {
    if n > 0 {
      var st := Stat(false, false, false, k);
      assert Reads(n)[0] == TryRead && Reads(n)[1..] == Reads(n - 1);
      assert !Spoils(b, TryRead, s.word);
      var s1 := Lock(Encode(b, Stat(false, false, false, k + 1)), multiset{}[Reader := k + 1]);
      assert Step(b, s, TryRead) == s1 by {
        hide Pow2, Decode, Encode, MaxReaders, Has, Count, Desired, Admits;
        AdmitsIs(b, TryRead, st);
        DesiredIs(b, TryRead, st);
        SameHolds(s.live + multiset{Reader}, s1.live);
      }
      hide Encode, MaxReaders, Step, Spoils;
      ReadsFill(b, s1, k + 1, n - 1);
    }
  }

  /** The overflow is reached from a fresh lock by as many readers as there may be: the
      accounting is still right, and an upgradable reader would now break it. */
  lemma OverflowIsReachable(b: nat)
    requires b >= MIN_WIDTH
    ensures var start := Lock(0, multiset{});
      && Legal(b, start, Reads(MaxReaders(b)))
      && (var s := Run(b, start, Reads(MaxReaders(b)));
          && Accounts(b, s) && s.live[Reader] == MaxReaders(b) && Enabled(TryUpgradableRead, s.live)
          && Spoils(b, TryUpgradableRead, s.word) && !Accounts(b, Step(b, s, TryUpgradableRead)))
  {
    var start := Lock(0, multiset{});
    var max := MaxReaders(b);
    var st := Stat(false, false, false, max);
    FreshAccounts(b);
    assert Encode(b, Stat(false, false, false, 0)) == 0;
    assert multiset{}[Reader := 0] == multiset{};
    hide Pow2, Decode, Encode, MaxReaders, Has, Count, Desired;
    ReadsFill(b, start, 0, max);
    RunKeeps(b, start, Reads(max));
    AdmitsIs(b, TryUpgradableRead, st);
    CountField(b, st);
    StepKeepsExactly(b, Run(b, start, Reads(max)), TryUpgradableRead);
  }

  /** That state is reached by a fresh lock's first upgradable reader. */
  lemma NestedIsReachable(b: nat)
    requires b >= MIN_WIDTH
    ensures var s := Step(b, Step(b, Lock(0, multiset{}), TryUpgradableRead), UpgradeToWrite);
      Accounts(b, s) && s.live == multiset{Upgradable, Upgraded}
  {
    hide Pow2, Decode, Encode, MaxReaders, Has, Count, Desired, Admits;
    var s0 := Lock(0, multiset{});
    FreshAccounts(b);
    assert MaxReaders(b) > 0 by { Sizes(b); }
    AdmittedExactly(b, s0, TryUpgradableRead);
    StatusReads(b, s0.word);
    StepKeepsExactly(b, s0, TryUpgradableRead);
    var s1 := Step(b, s0, TryUpgradableRead);
    AdmittedExactly(b, s1, UpgradeToWrite);
    StepKeepsExactly(b, s1, UpgradeToWrite);
  }

  lemma FreshAccounts(b: nat)
    requires b >= MIN_WIDTH
    ensures Accounts(b, Lock(0, multiset{}))
    ensures !Has(0, WriterQueued(b)) && Count(b, 0) == 0
  {
    var st := Stat(false, false, false, 0);
    assert Encode(b, st) == 0;
    DecodeEncode(b, st);
    hide Pow2, Decode, Encode, MaxReaders, Has, Count;
    StatusReads(b, 0);
  }

  // -------------------------------------------------------------------------
  // The lock in use
  // -------------------------------------------------------------------------

  datatype Round = Round(cancelled: bool, others: seq<Op>)

  datatype Waited = Done | Cancelled | Spinning

  /** In terms of guards alone: the wait ends with the first try that finds nobody but
      our upgradable reader, or with the cancellation. */
  ghost function Outcome(b: nat, s: Lock, rounds: seq<Round>): Waited
    requires b >= MIN_WIDTH
    decreases |rounds|
  {
    if s.live == multiset{Upgradable} then Done
    else if rounds == [] then Spinning
    else if rounds[0].cancelled then Cancelled
    else Outcome(b, Run(b, s, rounds[0].others), rounds[1..])
  }

  /** The lock at try `i`. */
  ghost function AtTry(b: nat, s: Lock, rounds: seq<Round>, i: nat): Lock
    requires b >= MIN_WIDTH && i <= |rounds|
    decreases i
  {
    if i == 0 then s else AtTry(b, Run(b, s, rounds[0].others), rounds[1..], i - 1)
  }

  /** Only our upgradable reader is left at try `i`, and nobody cancelled before it. */
  ghost predicate WinsAt(b: nat, s: Lock, rounds: seq<Round>, i: nat)
    requires b >= MIN_WIDTH && i <= |rounds|
  {
    AtTry(b, s, rounds, i).live == multiset{Upgradable} && forall j :: 0 <= j < i ==> !rounds[j].cancelled
  }

  /** The token is cancelled after try `i`, and neither that try nor an earlier one found
      our reader alone. */
  ghost predicate GivesUpAt(b: nat, s: Lock, rounds: seq<Round>, i: nat)
    requires b >= MIN_WIDTH && i < |rounds|
  {
    rounds[i].cancelled && forall j :: 0 <= j <= i ==> AtTry(b, s, rounds, j).live != multiset{Upgradable}
  }

  ghost predicate Wins(b: nat, s: Lock, rounds: seq<Round>)
    requires b >= MIN_WIDTH
  {
    exists i :: 0 <= i <= |rounds| && WinsAt(b, s, rounds, i)
  }

  ghost predicate GivesUp(b: nat, s: Lock, rounds: seq<Round>)
    requires b >= MIN_WIDTH
  {
    exists i :: 0 <= i < |rounds| && GivesUpAt(b, s, rounds, i)
  }

  /** What the wait comes to, read off the states at its tries: the lock is had if and only
      if some try finds our reader alone before any cancellation, and the wait is cancelled
      if and only if the token is, before any such try. */
  lemma {:induction false} OutcomeMeans(b: nat, s: Lock, rounds: seq<Round>)
    requires b >= MIN_WIDTH
    ensures Outcome(b, s, rounds).Done? <==> Wins(b, s, rounds)
    ensures Outcome(b, s, rounds).Cancelled? <==> GivesUp(b, s, rounds)
    decreases |rounds|
  {
    assert AtTry(b, s, rounds, 0) == s;
    if s.live == multiset{Upgradable} {
      assert WinsAt(b, s, rounds, 0);
    } else if rounds != [] && !rounds[0].cancelled {
      OutcomeMeans(b, Run(b, s, rounds[0].others), rounds[1..]);
      assert Outcome(b, s, rounds) == Outcome(b, Run(b, s, rounds[0].others), rounds[1..]);
      hide Run, AtTry, Wins, GivesUp;
      WonLater(b, s, rounds);
      GivenUpLater(b, s, rounds);
    } else if rounds != [] {
      assert GivesUpAt(b, s, rounds, 0);
    }
  }

  lemma TriesLater(b: nat, s: Lock, rounds: seq<Round>, i: nat)
    requires b >= MIN_WIDTH && 0 < i <= |rounds| && !rounds[0].cancelled && s.live != multiset{Upgradable}
    ensures var s1, rest := Run(b, s, rounds[0].others), rounds[1..];
      && (WinsAt(b, s, rounds, i) <==> WinsAt(b, s1, rest, i - 1))
      && (i < |rounds| ==> (GivesUpAt(b, s, rounds, i) <==> GivesUpAt(b, s1, rest, i - 1)))
  {
    var s1, rest := Run(b, s, rounds[0].others), rounds[1..];
    assert AtTry(b, s, rounds, 0) == s;
    hide Run;
    assert forall j :: 0 <= j < |rest| ==> rest[j] == rounds[j + 1];
    forall j | 0 <= j <= |rest| ensures AtTry(b, s1, rest, j) == AtTry(b, s, rounds, j + 1) {}
    hide AtTry;
    assert forall j :: 0 < j <= i ==> AtTry(b, s1, rest, j - 1) == AtTry(b, s, rounds, j);
    assert forall j :: 0 < j < i ==> rest[j - 1] == rounds[j];
  }

  lemma WonLater(b: nat, s: Lock, rounds: seq<Round>)
    requires b >= MIN_WIDTH && rounds != [] && !rounds[0].cancelled && s.live != multiset{Upgradable}
    requires AtTry(b, s, rounds, 0) == s
    ensures Wins(b, s, rounds) <==> Wins(b, Run(b, s, rounds[0].others), rounds[1..])
  {
    var s1, rest := Run(b, s, rounds[0].others), rounds[1..];
    assert !WinsAt(b, s, rounds, 0);
    hide Run, WinsAt, AtTry;
    if exists i :: 0 <= i <= |rounds| && WinsAt(b, s, rounds, i) {
      var i :| 0 <= i <= |rounds| && WinsAt(b, s, rounds, i);
      TriesLater(b, s, rounds, i);
    }
    if exists i :: 0 <= i <= |rest| && WinsAt(b, s1, rest, i) {
      var i :| 0 <= i <= |rest| && WinsAt(b, s1, rest, i);
      TriesLater(b, s, rounds, i + 1);
    }
  }

  lemma GivenUpLater(b: nat, s: Lock, rounds: seq<Round>)
    requires b >= MIN_WIDTH && rounds != [] && !rounds[0].cancelled && s.live != multiset{Upgradable}
    ensures GivesUp(b, s, rounds) <==> GivesUp(b, Run(b, s, rounds[0].others), rounds[1..])
  {
    var s1, rest := Run(b, s, rounds[0].others), rounds[1..];
    assert !GivesUpAt(b, s, rounds, 0);
    hide Run, GivesUpAt, AtTry;
    if exists i :: 0 <= i < |rounds| && GivesUpAt(b, s, rounds, i) {
      var i :| 0 <= i < |rounds| && GivesUpAt(b, s, rounds, i);
      TriesLater(b, s, rounds, i);
    }
    if exists i :: 0 <= i < |rest| && GivesUpAt(b, s1, rest, i) {
      var i :| 0 <= i < |rest| && GivesUpAt(b, s1, rest, i);
      TriesLater(b, s, rounds, i + 1);
    }
  }

  ghost predicate LegalRounds(b: nat, s: Lock, rounds: seq<Round>)
    requires b >= MIN_WIDTH
    decreases |rounds|
  {
    rounds == [] ||
    (var ops := rounds[0].others;
     && Legal(b, s, ops) && (forall i :: 0 <= i < |ops| ==> Foreign(ops[i]))
     && LegalRounds(b, Run(b, s, ops), rounds[1..]))
  }

  /** The word shared by all guards. Calls that take more than one atomic update get the
      operations of other threads in between as an argument. */
  class RwLockState {
    const b: nat
    var word: nat
    ghost var live: Live

    constructor (b: nat)
      requires b >= MIN_WIDTH
      ensures Valid() && this.b == b && live == multiset{}
    {
      this.b, word, live := b, 0, multiset{};
      new;
      FreshAccounts(b);
    }

    ghost predicate Valid()
      reads this
    {
      Accounts(b, Abs())
    }

    ghost function Abs(): Lock
      reads this
    {
      Lock(word, live)
    }

    /** `try_spin_update_` with the `expect` and `desire` of one operation. */
    method Update(op: Op) returns (ok: bool)
      requires Valid() && Enabled(op, live)
      modifies this
      ensures Abs() == Step(b, old(Abs()), op) && (Valid() <==> !Spoils(b, op, old(word)))
      ensures ok == Admits(b, op, old(word))
    {
      StepKeepsExactly(b, Abs(), op);
      ok := Admits(b, op, word);
      if ok {
        word, live := Desired(b, op, word), After(op, live);
      }
    }

    /** What other threads do meanwhile. */
    method Others(ops: seq<Op>)
      requires Valid() && Legal(b, Abs(), ops)
      modifies this
      ensures Valid() && Abs() == Run(b, old(Abs()), ops)
    {
      for i := 0 to |ops|
        invariant Valid() && Legal(b, Abs(), ops[i..])
        invariant Run(b, Abs(), ops[i..]) == Run(b, old(Abs()), ops)
      {
        var _ := Update(ops[i]);
      }
    }

    /** `try_write`: a refused writer leaves the queued bit set, whatever happened
        between its two updates. */
    method TryWriteGuard(others: seq<Op>) returns (ok: bool)
      requires Valid() && (live != multiset{} ==> Legal(b, Abs(), others))
      modifies this
      ensures Valid() && ok == (old(live) == multiset{})
      ensures ok ==> live == multiset{Writer}
      ensures !ok ==> Has(word, WriterQueued(b)) && live == Run(b, old(Abs()), others).live
    {
      AdmittedExactly(b, Abs(), TryWrite);
      ok := Update(TryWrite);
      if ok { return; }
      Others(others);
      ghost var s := Abs();
      AdmittedExactly(b, s, QueueWriter);
      var _ := Update(QueueWriter);
      StepQueues(b, s);
    }

    /** The consuming upgrade: the writer bit first, then the drop of the upgradable
        reader that was consumed. On success a plain writer is all that is left, however
        the others moved in between; on failure the reader is handed back. */
    method TryUpgradeToWriter(others: seq<Op>) returns (ok: bool)
      requires Valid() && Upgradable in live && Upgraded !in live
      requires live == multiset{Upgradable} ==> Legal(b, Step(b, Abs(), UpgradeToWrite), others)
      requires forall i :: 0 <= i < |others| ==> Foreign(others[i])
      modifies this
      ensures Valid() && ok == (old(live) == multiset{Upgradable})
      ensures live == if ok then multiset{Writer} else old(live)
    {
      AdmittedExactly(b, Abs(), UpgradeToWrite);
      ok := Update(UpgradeToWrite);
      if !ok { return; }
      ForeignKeepsOurs(b, Abs(), others);
      Others(others);
      AdmittedExactly(b, Abs(), DropUpgradable);
      var _ := Update(DropUpgradable);
    }

    /** The in-place upgrade: the writer holds on to the upgradable reader. */
    method TryUpgrade() returns (ok: bool)
      requires Valid() && Upgradable in live && Upgraded !in live
      modifies this
      ensures Valid() && ok == (old(live) == multiset{Upgradable})
      ensures if ok then live == multiset{Upgradable, Upgraded} else Abs() == old(Abs())
    {
      AdmittedExactly(b, Abs(), UpgradeToWrite);
      ok := Update(UpgradeToWrite);
    }

    /** `upgrade_with_cancel`: try, look at the cancellation token, try again. A round is
        whether the token is cancelled by then and what other threads do before the next
        try. The loop gets the lock at the first try that finds the reader alone. */
    method UpgradeWithCancel(rounds: seq<Round>) returns (r: Waited)
      requires Valid() && Upgradable in live && Upgraded !in live && LegalRounds(b, Abs(), rounds)
      modifies this
      ensures Valid() && r == Outcome(b, old(Abs()), rounds)
      ensures r.Done? ==> live == multiset{Upgradable, Upgraded}
      ensures !r.Done? ==> Upgradable in live && Upgraded !in live
    {
      assert b >= MIN_WIDTH;
      hide Accounts, Legal, Run;
      for i := 0 to |rounds|
        invariant Valid() && Upgradable in live && Upgraded !in live && LegalRounds(b, Abs(), rounds[i..])
        invariant Outcome(b, Abs(), rounds[i..]) == Outcome(b, old(Abs()), rounds)
      {
        var ok := TryUpgrade();
        if ok { return Done; }
        if rounds[i].cancelled { return Cancelled; }
        ForeignKeepsOurs(b, Abs(), rounds[i].others);
        Others(rounds[i].others);
      }
      var ok := TryUpgrade();
      r := if ok then Done else Spinning;
    }
  }

  lemma StepQueues(b: nat, s: Lock)
    requires Accounts(b, s)
    ensures Has(Step(b, s, QueueWriter).word, WriterQueued(b))
  {
    hide Pow2, Decode, Encode, MaxReaders, Has, Count, Desired, Admits;
    StatusReads(b, s.word);
    StepKeepsExactly(b, s, QueueWriter);
    AdmitsIs(b, QueueWriter, Decode(b, s.word));
    if Admits(b, QueueWriter, s.word) {
      StepIsNext(b, s, QueueWriter);
      StatusReads(b, Step(b, s, QueueWriter).word);
    }
  }

  /** What a thread can do to guards that are not ours. */
  predicate Foreign(op: Op) {
    op.TryRead? || op.TryWrite? || op.QueueWriter? || op.TryUpgradableRead? || op.DropReader?
  }

  /** No operation on foreign guards takes away our upgradable reader, or makes a writer
      beside it. */
  lemma {:induction false} ForeignKeepsOurs(b: nat, s: Lock, ops: seq<Op>)
    requires Accounts(b, s) && Legal(b, s, ops) && Upgradable in s.live
    requires forall i :: 0 <= i < |ops| ==> Foreign(ops[i])
    ensures var live := Run(b, s, ops).live;
      && Upgradable in live && (Upgraded in live <==> Upgraded in s.live)
      && (Upgraded in s.live ==> live == s.live)
    decreases |ops|
  {
    if ops != [] {
      AdmittedExactly(b, s, ops[0]);
      StepKeepsExactly(b, s, ops[0]);
      ForeignKeepsOurs(b, Step(b, s, ops[0]), ops[1..]);
    }
  }
}
