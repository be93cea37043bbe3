/** Waiting and waking on the ring. A passive end that finds too little parks: it posts
    its demand, arms its standby bit, registers a waiter and looks again. The other end
    fires after each commit: it reads its own closed flag, the size, the standby bit and
    the posted demand, and takes and wakes the waiter. Every one of these accesses is a
    step of its own, and the steps of both ends interleave freely. */
module RingWake {
  import opened Common
  import opened RingWord
  import opened Ring

  /** Where an end is between its commit and its signal. `close` tells a close event
      from an available event, `n` is the size that was loaded for it. */
  datatype FirePc =
    | Quiet
    | Committed
    | Evented(close: bool)
    | Sized(close: bool, n: nat)
    | Gated(close: bool, n: nat)       // the standby bit was found set
    | Signalling                       // the demand was found met
    | Holding(id: nat)                 // the waiter was swapped out, its waker not yet called

  /** Where an end is in its wait. `reg` says that this future registered its waiter. */
  datatype WaitPc =
    | Awake
    | Posted(min: nat)                 // demand posted
    | Checking(min: nat, reg: bool)    // armed; about to look at the state
    | Registering(min: nat, reg: bool)
    | Rechecking(min: nat)
    | Parked(min: nat)
    | Leaving(min: nat, reg: bool)     // the guard drops: deregister, disarm, reset
    | Disarming(min: nat)
    | Resetting(min: nat)

  /** One end: its own fire and wait positions, and the demand and wake slot that the
      other end reads. `id` names the current waiter, `woken` is set by its waker. */
  datatype End = End(fire: FirePc, wait: WaitPc, demand: Option<nat>, slot: Option<nat>, id: nat, woken: bool)

  datatype Sys<T> = Sys(ring: Ring<T>, tx: End, rx: End) {
    function At(x: Side): End { if x.Tx? then tx else rx }

    function With(x: Side, e: End): Sys<T> {
      if x.Tx? then this.(tx := e) else this.(rx := e)
    }

    function Armed(x: Side): bool {
      if x.Tx? then ring.word.txStandby else ring.word.rxStandby
    }

    function Closed(x: Side): bool {
      if x.Tx? then ring.word.txClosed else ring.word.rxClosed
    }

    ghost predicate Open() { !ring.word.txClosed && !ring.word.rxClosed }

    /** What end `x` waits for: space or data. */
    function Level(x: Side): nat
      requires ring.Shape()
    {
      if x.Tx? then ring.Free() else ring.Data()
    }

    /** The condition a waiting end looks at: the lend would succeed or end for good. */
    function CanStop(x: Side, min: nat): bool
      requires ring.Shape()
    {
      var word, cap := ring.word, ring.Cap();
      if x.Tx? then
        var r := TryWriteAt(word, cap, min, cap); r.Ok? || r.error.Closing?
      else
        var r := TryReadAt(word, cap, min, cap); r.Ok? || r.error.Closing?
    }
  }

  datatype Side = Tx | Rx

  function Peer(x: Side): Side { if x.Tx? then Rx else Tx }

  /** Steps of one end. `Next` performs the one access its wait position calls for. */
  datatype Act<T> =
    | Move(a: Action<T>)               // lending and copying: no commit, close or standby
    | Commit(x: Side)
    | Close(x: Side)
    | Fire(x: Side)
    | Park(x: Side, min: nat)
    | Next(x: Side)
    | Poll(x: Side)                    // the executor polls a parked future, woken or not
    | Drop(x: Side)                    // the future is dropped or cancelled
    | Nudge(x: Side)                   // a wake that has nothing to do with the ring

  function CommitOf<T>(x: Side): Action<T> { if x.Tx? then CommitWrite else CommitRead }
  function CloseOf<T>(x: Side): Action<T> { if x.Tx? then CloseTx else CloseRx }

  ghost predicate CanAct<T>(s: Sys<T>, act: Act<T>)
    requires Inv(s.ring)
  {
    match act
    case Move(a) => Enabled(s.ring, a) && (a.LendWrite? || a.LendRead? || a.Put? || a.Scribble? || a.Take?)
    case Commit(x) => s.At(x).fire.Quiet? && Enabled(s.ring, CommitOf(x))
    case Close(x) => s.At(x).fire.Quiet?
    case Fire(x) => !s.At(x).fire.Quiet?
    case Park(x, _) => s.At(x).wait.Awake?
    case Next(x) => !s.At(x).wait.Awake? && !s.At(x).wait.Parked?
    case Poll(x) => s.At(x).wait.Parked?
    case Drop(x) => s.At(x).wait.Parked? || (s.At(x).wait.Checking? && !s.At(x).wait.reg)
    case Nudge(_) => true
  }

  /** One access of `fire_producer` or `fire_consumer` and the passive `check`: `closed`
      is the firing end's own flag, the rest is what the other end exposes. */
  function FireNext(f: FirePc, closed: bool, level: nat, armed: bool, other: End): (FirePc, End) {
    match f
    case Quiet => (Quiet, other)
    case Committed => (Evented(closed), other)
    case Evented(close) => (Sized(close, level), other)
    case Sized(close, n) => (if armed then Gated(close, n) else Quiet, other)
    case Gated(close, n) =>
      var hit := !close && n != 0 && other.demand.Some? && n >= other.demand.value;
      (if hit then Signalling else Quiet, other)
    case Signalling =>
      (if other.slot.Some? then Holding(other.slot.value) else Quiet, other.(slot := None))
    case Holding(id) => (Quiet, other.(woken := other.woken || other.id == id))
  }

  function FireStep<T>(s: Sys<T>, y: Side): Sys<T>
    requires s.ring.Shape()
  {
    var x := Peer(y);
    var (f, other) := FireNext(s.At(y).fire, s.Closed(y), s.Level(x), s.Armed(x), s.At(x));
    s.With(x, other).With(y, s.At(y).(fire := f))
  }

  function Arm<T>(s: Sys<T>, x: Side, on: bool): Sys<T> {
    s.(ring := s.ring.(word := if x.Tx? then s.ring.word.(txStandby := on)
                               else s.ring.word.(rxStandby := on)))
  }

  /** The body of the passive wait and the drop of its guard, one access per step. */
  function WaitStep<T>(s: Sys<T>, x: Side): Sys<T>
    requires s.ring.Shape()
  {
    var e := s.At(x);
    match e.wait
    case Awake => s
    case Parked(_) => s
    case Posted(min) => Arm(s, x, true).With(x, e.(wait := Checking(min, false)))
    case Checking(min, reg) =>
      s.With(x, e.(wait := if s.CanStop(x, min) then Leaving(min, reg) else Registering(min, reg)))
    case Registering(min, reg) =>
      if e.slot == None || e.slot == Some(e.id) then
        s.With(x, e.(slot := Some(e.id), wait := Rechecking(min)))
      else s
    case Rechecking(min) =>
      s.With(x, e.(wait := if s.CanStop(x, min) then Leaving(min, true) else Parked(min)))
    case Leaving(min, reg) =>
      s.With(x, e.(slot := if reg && e.slot == Some(e.id) then None else e.slot, wait := Disarming(min)))
    case Disarming(min) => Arm(s, x, false).With(x, e.(wait := Resetting(min)))
    case Resetting(_) => s.With(x, e.(demand := None, wait := Awake))
  }

  ghost function StepOf<T>(s: Sys<T>, act: Act<T>): Sys<T>
    requires Inv(s.ring) && CanAct(s, act)
  {
    match act
    case Move(a) => s.(ring := Step(s.ring, a))
    case Commit(x) => s.(ring := Step(s.ring, CommitOf(x))).With(x, s.At(x).(fire := Committed))
    case Close(x) => s.(ring := Step(s.ring, CloseOf(x))).With(x, s.At(x).(fire := Evented(true)))
    case Fire(x) => FireStep(s, x)
    case Park(x, min) =>
      var e := s.At(x);
      s.With(x, e.(demand := Some(min), id := e.id + 1, woken := false, wait := Posted(min)))
    case Next(x) => WaitStep(s, x)
    case Poll(x) => s.With(x, s.At(x).(woken := false, wait := Checking(s.At(x).wait.min, true)))
    case Drop(x) => s.With(x, s.At(x).(wait := Leaving(s.At(x).wait.min, s.At(x).wait.Parked?)))
    case Nudge(x) => s.With(x, s.At(x).(woken := true))
  }

  // -------------------------------------------------------------------------
  // Invariant
  // -------------------------------------------------------------------------

  /** The end's future may have its waiter in the slot. */
  predicate Registered(w: WaitPc) {
    match w
    case Checking(_, reg) => reg
    case Registering(_, reg) => reg
    case Rechecking(_) => true
    case Parked(_) => true
    case Leaving(_, reg) => reg
    case _ => false
  }

  predicate ArmedAt(w: WaitPc) {
    w.Checking? || w.Registering? || w.Rechecking? || w.Parked? || w.Leaving? || w.Disarming?
  }

  /** The fire in progress will still reach a waiter whose demand is `min`. */
  predicate Reaches(f: FirePc, min: nat) {
    match f
    case Committed => true
    case Evented(close) => !close
    case Sized(close, n) => !close && n >= Max1(min)
    case Gated(close, n) => !close && n >= Max1(min)
    case Signalling => true
    case _ => false
  }

  predicate CloseEvent(f: FirePc) {
    (f.Evented? && f.close) || (f.Sized? && f.close) || (f.Gated? && f.close)
  }

  /** What holds of a waiting end `e`, given where its peer's fire is. The last clause is
      the heart: a parked end whose demand is met, while both ends are open, has been
      woken, or its waker is about to be called, or a fire that reaches it is under way. */
  predicate Waits(e: End, f: FirePc, armed: bool, open: bool, peerClosed: bool, level: nat) {
    && e.demand == (if e.wait.Awake? then None else Some(e.wait.min))
    && (armed <==> ArmedAt(e.wait))
    && (e.slot.Some? ==> e.slot.value == e.id && Registered(e.wait))
    && (CloseEvent(f) ==> peerClosed) && (open ==> !peerClosed)
    && (e.wait.Rechecking? || e.wait.Parked? ==> e.slot.Some? || e.woken || f == Holding(e.id))
    && (e.wait.Parked? && open && level >= Max1(e.wait.min) && !e.woken ==>
          f == Holding(e.id) || (e.slot.Some? && Reaches(f, e.wait.min)))
  }

  ghost predicate EndInv<T>(s: Sys<T>, x: Side)
    requires s.ring.Shape()
  {
    Waits(s.At(x), s.At(Peer(x)).fire, s.Armed(x), s.Open(), s.Closed(Peer(x)), s.Level(x))
  }

  ghost predicate SysInv<T>(s: Sys<T>) {
    Inv(s.ring) && EndInv(s, Tx) && EndInv(s, Rx)
  }

  function InitSys<T>(cells: seq<T>): Sys<T> {
    var e := End(Quiet, Awake, None, None, 0, false);
    Sys(Init(cells), e, e)
  }

  lemma InitSysInv<T>(cells: seq<T>)
    requires MIN_CAPACITY <= |cells| <= MAX_CAPACITY
    ensures SysInv(InitSys(cells))
  {
    InitInv(cells);
  }

  /** The condition looked at before parking is exactly the wake condition. */
  lemma CanStopIs<T>(s: Sys<T>, x: Side, min: nat)
    requires Inv(s.ring)
    ensures s.CanStop(x, min) <==>
      s.Level(x) >= Max1(min) || s.Closed(x) || (x.Rx? && s.Closed(Tx))
  {}

  lemma ArmKeeps<T>(s: Sys<T>, x: Side)
    requires SysInv(s) && (s.At(x).wait.Posted? || s.At(x).wait.Disarming?)
    ensures SysInv(WaitStep(s, x))
  {
    assert s.ring.Shape();
    hide Inv;
    FlagStep(s.ring, SetStandby(x.Tx?, s.At(x).wait.Posted?));
    var s' := WaitStep(s, x);
    assert s'.ring.Pos() == s.ring.Pos();
    assert EndInv(s', x) && EndInv(s', Peer(x));
  }

  lemma WaitKeeps<T>(s: Sys<T>, act: Act<T>)
    requires SysInv(s) && CanAct(s, act)
    requires act.Park? || act.Next? || act.Poll? || act.Drop? || act.Nudge?
    ensures SysInv(StepOf(s, act))
  {
    var x := act.x;
    if act.Next? {
      var e := s.At(x);
      if e.wait.Posted? || e.wait.Disarming? {
        ArmKeeps(s, x);
      } else {
        NextKeeps(s, x);
      }
    } else {
      var s' := StepOf(s, act);
      assert EndInv(s', x);
      assert EndInv(s', Peer(x));
    }
  }

  lemma NextKeeps<T>(s: Sys<T>, x: Side)
    requires SysInv(s) && !s.At(x).wait.Posted? && !s.At(x).wait.Disarming?
    ensures SysInv(WaitStep(s, x))
  {
    assert s.ring.Shape();
    hide Inv, TryWriteAt, TryReadAt;
    var e, s' := s.At(x), WaitStep(s, x);
    if e.wait.Checking? || e.wait.Rechecking? { CanStopIs(s, x, e.wait.min); }
    assert EndInv(s', x);
    assert EndInv(s', Peer(x));
  }

  lemma FireKeeps<T>(s: Sys<T>, y: Side)
    requires SysInv(s) && CanAct(s, Fire(y))
    ensures SysInv(FireStep(s, y))
  {
    var x := Peer(y);
    FireReaches(s.At(x), s.At(y).fire, s.Armed(x), s.Open(), s.Closed(y), s.Level(x));
    hide Inv, Waits, FireNext;
    var s' := FireStep(s, y);
    assert s'.ring == s.ring && s'.At(y) == s.At(y).(fire := s'.At(y).fire);
    assert Waits(s'.At(y), s'.At(x).fire, s.Armed(y), s.Open(), s.Closed(x), s.Level(y)) by {
      FireIsOneSided(s.At(y).fire, s.Closed(y), s.Level(x), s.Armed(x), s.At(x));
      OwnFireIsIrrelevant(s.At(y), s'.At(y).fire, s.At(x).fire, s.Armed(y), s.Open(), s.Closed(x), s.Level(y));
    }
  }

  lemma FireIsOneSided(f: FirePc, closed: bool, level: nat, armed: bool, other: End)
    ensures FireNext(f, closed, level, armed, other).1.fire == other.fire
  {}

  lemma OwnFireIsIrrelevant(e: End, g: FirePc, f: FirePc, armed: bool, open: bool, closed: bool, level: nat)
    requires Waits(e, f, armed, open, closed, level)
    ensures Waits(e.(fire := g), f, armed, open, closed, level)
  {}

  /** A fire that will reach the parked end still will after one more access. */
  lemma FireReaches(e: End, f: FirePc, armed: bool, open: bool, peerClosed: bool, level: nat)
    requires Waits(e, f, armed, open, peerClosed, level) && !f.Quiet?
    ensures var (f', e') := FireNext(f, peerClosed, level, armed, e);
      Waits(e', f', armed, open, peerClosed, level)
  {}

  lemma CommitKeeps<T>(s: Sys<T>, x: Side)
    requires SysInv(s) && CanAct(s, Commit(x))
    ensures SysInv(StepOf(s, Commit(x)))
  {
    if x.Tx? { CommitWriteStep(s.ring); } else { CommitReadStep(s.ring); }
  }

  lemma MoveKeeps<T>(s: Sys<T>, act: Act<T>)
    requires SysInv(s) && CanAct(s, act) && (act.Move? || act.Close?)
    ensures SysInv(StepOf(s, act))
  {
    StepRefines(s.ring, if act.Move? then act.a else CloseOf(act.x));
  }

  /** Every step of either end keeps the invariant. */
  lemma StepKeeps<T>(s: Sys<T>, act: Act<T>)
    requires SysInv(s) && CanAct(s, act)
    ensures SysInv(StepOf(s, act))
  {
    match act
    case Move(_) => MoveKeeps(s, act);
    case Close(_) => MoveKeeps(s, act);
    case Commit(x) => CommitKeeps(s, x);
    case Fire(x) => FireKeeps(s, x);
    case _ => WaitKeeps(s, act);
  }

  // -------------------------------------------------------------------------
  // Whole runs
  // -------------------------------------------------------------------------

  ghost predicate SysRuns<T>(s: Sys<T>, acts: seq<Act<T>>)
    requires SysInv(s)
    decreases |acts|
  {
    acts == [] ||
    (CanAct(s, acts[0]) && (StepKeeps(s, acts[0]); SysRuns(StepOf(s, acts[0]), acts[1..])))
  }

  ghost function SysRun<T>(s: Sys<T>, acts: seq<Act<T>>): Sys<T>
    requires SysInv(s) && SysRuns(s, acts)
    decreases |acts|
  {
    if acts == [] then s else
      StepKeeps(s, acts[0]);
      SysRun(StepOf(s, acts[0]), acts[1..])
  }

  /** The invariant holds in every state that a run reaches. */
  lemma {:induction false} SysRunKeeps<T>(s: Sys<T>, acts: seq<Act<T>>)
    requires SysInv(s) && SysRuns(s, acts)
    ensures SysInv(SysRun(s, acts))
    decreases |acts|
  {
    if acts != [] {
      StepKeeps(s, acts[0]);
      hide Waits, Inv, StepOf, CanAct;
      SysRunKeeps(StepOf(s, acts[0]), acts[1..]);
    }
  }

  function FireRank(f: FirePc): nat {
    match f
    case Quiet => 0
    case Committed => 6
    case Evented(_) => 5
    case Sized(_, _) => 4
    case Gated(_, _) => 3
    case Signalling => 2
    case Holding(_) => 1
  }

  /** End `y` runs its fire to the end while the other end stands still. */
  ghost function FinishFire<T>(s: Sys<T>, y: Side): (s': Sys<T>)
    requires SysInv(s)
    ensures SysInv(s') && s'.At(y).fire.Quiet? && s'.ring == s.ring
    ensures s'.At(Peer(y)).wait == s.At(Peer(y)).wait
    decreases FireRank(s.At(y).fire)
  {
    if s.At(y).fire.Quiet? then s else
      FireKeeps(s, y);
      FinishFire(FireStep(s, y), y)
  }

  /** No lost wake-up, over every run from an empty ring and for both ends. While both
      ends are open, a parked end whose demand is met has been woken or its peer is still
      between commit and signal; and that peer has only to go on for the parked end to
      be woken, with its demand still met when it looks again. */
  lemma NoLostWakeUp<T>(cells: seq<T>, acts: seq<Act<T>>, x: Side)
    requires MIN_CAPACITY <= |cells| <= MAX_CAPACITY
    requires (InitSysInv(cells); SysRuns(InitSys(cells), acts))
    ensures (InitSysInv(cells); var s := SysRun(InitSys(cells), acts);
      SysInv(s) && (s.At(x).wait.Parked? && s.Open() && s.Level(x) >= Max1(s.At(x).wait.min) ==>
        && (s.At(x).woken || !s.At(Peer(x)).fire.Quiet?)
        && (var s' := FinishFire(s, Peer(x));
            s'.At(x).woken && s'.CanStop(x, s.At(x).wait.min))))
  {
    InitSysInv(cells);
    SysRunKeeps(InitSys(cells), acts);
    var s := SysRun(InitSys(cells), acts);
    if s.At(x).wait.Parked? {
      CanStopIs(FinishFire(s, Peer(x)), x, s.At(x).wait.min);
    }
  }

  /** Waiters never collide: in every reachable state a posted demand finds the demand
      slot empty, and registering finds the wake slot empty or its own. */
  lemma WaitersNeverCollide<T>(cells: seq<T>, acts: seq<Act<T>>, x: Side)
    requires MIN_CAPACITY <= |cells| <= MAX_CAPACITY
    requires (InitSysInv(cells); SysRuns(InitSys(cells), acts))
    ensures (InitSysInv(cells); var e := SysRun(InitSys(cells), acts).At(x);
      && (e.wait.Awake? ==> e.demand == None && e.slot == None)
      && (e.wait.Registering? ==> e.slot == None || e.slot == Some(e.id)))
  {
    InitSysInv(cells);
    SysRunKeeps(InitSys(cells), acts);
  }

  /** Closing is no commit, at either end: whenever an end is parked and not woken, its
      peer can close and finish its fire, and the end stays parked and unwoken. For a
      reader this is so although its condition to stop holds from then on. */
  lemma CloseDoesNotWake<T>(s: Sys<T>, x: Side)
    requires SysInv(s) && s.At(x).wait.Parked? && !s.At(x).woken && s.At(Peer(x)).fire.Quiet?
    ensures CanAct(s, Close(Peer(x)))
    ensures (StepKeeps(s, Close(Peer(x))); var s' := FinishFire(StepOf(s, Close(Peer(x))), Peer(x));
      && s'.At(x).wait.Parked? && !s'.At(x).woken
      && (x.Rx? ==> s'.CanStop(Rx, s'.rx.wait.min)))
  {
    var y := Peer(x);
    StepKeeps(s, Close(y));
    var s1 := StepOf(s, Close(y));
    assert s1.At(y).fire == Evented(true) && s1.At(x).wait == s.At(x).wait && !s1.At(x).woken;
    assert x.Rx? ==> s1.Closed(Tx);
    hide Waits, StepOf, Step, CanAct;
    CloseFireMisses(s1, y);
    if x.Rx? { CanStopIs(FinishFire(s1, y), Rx, s.rx.wait.min); }
  }

  /** A fire on a close event ends without a signal. */
  lemma {:induction false} CloseFireMisses<T>(s: Sys<T>, y: Side)
    requires SysInv(s) && (CloseEvent(s.At(y).fire) || s.At(y).fire.Quiet?)
    ensures FinishFire(s, y).At(Peer(y)).woken == s.At(Peer(y)).woken
    decreases FireRank(s.At(y).fire)
  {
    if !s.At(y).fire.Quiet? {
      FireKeeps(s, y);
      hide Waits, Inv;
      CloseFireMisses(FireStep(s, y), y);
    }
  }

  /** Parked and unwoken before a peer that has closed, none of whose fires under way will
      signal. */
  ghost predicate Asleep<T>(s: Sys<T>, x: Side) {
    && SysInv(s) && s.At(x).wait.Parked? && !s.At(x).woken && s.Closed(Peer(x))
    && (s.At(Peer(x)).fire.Quiet? || s.At(Peer(x)).fire.Committed? || CloseEvent(s.At(Peer(x)).fire))
  }

  /** A step of the waiter itself, or a wake that has nothing to do with the ring. */
  predicate Rouses<T>(act: Act<T>, x: Side) {
    (act.Poll? || act.Drop? || act.Nudge?) && act.x == x
  }

  lemma AsleepStep<T>(s: Sys<T>, x: Side, act: Act<T>)
    requires Asleep(s, x) && CanAct(s, act) && !Rouses(act, x)
    ensures SysInv(StepOf(s, act)) && Asleep(StepOf(s, act), x)
  {
    StepKeeps(s, act);
    match act
    case Move(a) => StepRefines(s.ring, a); AsleepMove(s, x, a);
    case Commit(y) => StepRefines(s.ring, CommitOf(y)); AsleepRing(s, x, act);
    case Close(y) => StepRefines(s.ring, CloseOf(y)); AsleepRing(s, x, act);
    case _ => AsleepRest(s, x, act);
  }

  lemma AsleepMove<T>(s: Sys<T>, x: Side, a: Action<T>)
    requires Asleep(s, x) && CanAct(s, Move(a)) && Refines(s.ring, a, Step(s.ring, a))
    requires SysInv(StepOf(s, Move(a)))
    ensures Asleep(StepOf(s, Move(a)), x)
  {
    hide Inv, SysInv, Step;
  }

  lemma AsleepRing<T>(s: Sys<T>, x: Side, act: Act<T>)
    requires Asleep(s, x) && CanAct(s, act) && (act.Commit? || act.Close?) && SysInv(StepOf(s, act))
    requires act.Commit? ==> Refines(s.ring, CommitOf(act.x), Step(s.ring, CommitOf(act.x)))
    requires act.Close? ==> Refines(s.ring, CloseOf(act.x), Step(s.ring, CloseOf(act.x)))
    ensures Asleep(StepOf(s, act), x)
  {
    hide Inv, SysInv, Step;
  }

  lemma AsleepRest<T>(s: Sys<T>, x: Side, act: Act<T>)
    requires Asleep(s, x) && CanAct(s, act) && !Rouses(act, x) && SysInv(StepOf(s, act))
    requires act.Fire? || act.Park? || act.Next? || act.Poll? || act.Drop? || act.Nudge?
    ensures Asleep(StepOf(s, act), x)
  {
    RestKeepsRing(s, act);
    AsleepEnds(s, x, act);
    hide Inv, SysInv, StepOf, CanAct;
  }

  lemma AsleepEnds<T>(s: Sys<T>, x: Side, act: Act<T>)
    requires Asleep(s, x) && CanAct(s, act) && !Rouses(act, x)
    requires act.Fire? || act.Park? || act.Next? || act.Poll? || act.Drop? || act.Nudge?
    ensures var s' := StepOf(s, act);
      && s'.At(x).wait.Parked? && !s'.At(x).woken
      && (s'.At(Peer(x)).fire.Quiet? || s'.At(Peer(x)).fire.Committed? || CloseEvent(s'.At(Peer(x)).fire))
  {
    assert s.ring.Shape();
    hide Inv, SysInv, TryReadAt, TryWriteAt;
  }

  /** Never: over every run from there, whatever the closed peer commits and fires and
      whatever else happens, the end stays parked and unwoken until its own future is
      polled or dropped, or something foreign to the ring wakes it. */
  lemma {:induction false} NeverWoken<T>(s: Sys<T>, x: Side, acts: seq<Act<T>>)
    requires Asleep(s, x) && SysRuns(s, acts)
    requires forall i :: 0 <= i < |acts| ==> !Rouses(acts[i], x)
    ensures Asleep(SysRun(s, acts), x)
    decreases |acts|
  {
    if acts != [] {
      StepKeeps(s, acts[0]);
      AsleepStep(s, x, acts[0]);
      assert SysInv(s);
      hide Asleep, StepOf, CanAct, SysInv;
      NeverWoken(StepOf(s, acts[0]), x, acts[1..]);
    }
  }

  /** And the close of a peer at rest leads there. */
  lemma CloseLeavesAsleep<T>(s: Sys<T>, x: Side)
    requires SysInv(s) && s.At(x).wait.Parked? && !s.At(x).woken && s.At(Peer(x)).fire.Quiet?
    ensures CanAct(s, Close(Peer(x))) && Asleep(StepOf(s, Close(Peer(x))), x)
  {
    StepKeeps(s, Close(Peer(x)));
  }

  /** What an end asks for that has to wait at an empty ring: a reader one item, a writer
      more than the ring can hold. */
  function TooMuch(x: Side, cap: nat): nat { if x.Rx? then 1 else cap + 1 }

  /** An end on its way to being parked: it has found too little so far. */
  ghost predicate Waiting<T>(s: Sys<T>, x: Side, w: WaitPc) {
    && SysInv(s) && s.Open() && s.At(Peer(x)).fire.Quiet? && s.At(x).wait == w && !s.At(x).woken
    && !w.Awake? && s.Level(x) < Max1(w.min)
  }

  function Onward(w: WaitPc): WaitPc {
    match w
    case Posted(min) => Checking(min, false)
    case Checking(min, reg) => Registering(min, reg)
    case Registering(min, _) => Rechecking(min)
    case Rechecking(min) => Parked(min)
    case _ => w
  }

  lemma GoOn<T>(s: Sys<T>, x: Side, w: WaitPc)
    requires Waiting(s, x, w) && (w.Posted? || w.Checking? || w.Registering? || w.Rechecking?)
    ensures SysInv(s) && CanAct(s, Next(x))
    ensures SysInv(StepOf(s, Next(x))) && Waiting(StepOf(s, Next(x)), x, Onward(w))
  {
    StepKeeps(s, Next(x));
    if !w.Posted? { CanStopIs(s, x, w.min); }
    assert w.Posted? ==> WaitStep(s, x).ring.Pos() == s.ring.Pos();
    assert s.ring.Shape();
    hide Inv, TryWriteAt, TryReadAt;
  }

  /** Such an end is there: from an empty ring either end parks, registered and unwoken,
      with its peer at rest and both ends open. */
  lemma ParkedIsReachable<T>(cells: seq<T>, x: Side)
    requires MIN_CAPACITY <= |cells| <= MAX_CAPACITY
    ensures (InitSysInv(cells);
      var acts := [Park(x, TooMuch(x, |cells|)), Next(x), Next(x), Next(x), Next(x)];
      && SysRuns(InitSys(cells), acts)
      && Waiting(SysRun(InitSys(cells), acts), x, Parked(TooMuch(x, |cells|))))
  {
    InitSysInv(cells);
    var min := TooMuch(x, |cells|);
    var s0 := InitSys(cells);
    DataSizeIs(s0.ring.Pos());
    StepKeeps(s0, Park(x, min));
    var s1 := StepOf(s0, Park(x, min));
    assert Waiting(s1, x, Posted(min)) && CanAct(s0, Park(x, min));
    hide Inv, SysInv, Waiting, StepOf, CanAct, InitSys;
    GoOn(s1, x, Posted(min));
    var s2 := StepOf(s1, Next(x));
    GoOn(s2, x, Checking(min, false));
    var s3 := StepOf(s2, Next(x));
    GoOn(s3, x, Registering(min, false));
    var s4 := StepOf(s3, Next(x));
    GoOn(s4, x, Rechecking(min));
    SysRunsCons(s4, Next(x), []);
    SysRunsCons(s3, Next(x), [Next(x)]);
    SysRunsCons(s2, Next(x), [Next(x), Next(x)]);
    SysRunsCons(s1, Next(x), [Next(x), Next(x), Next(x)]);
    SysRunsCons(s0, Park(x, min), [Next(x), Next(x), Next(x), Next(x)]);
  }

  lemma SysRunsCons<T>(s: Sys<T>, act: Act<T>, rest: seq<Act<T>>)
    requires SysInv(s) && CanAct(s, act) && (StepKeeps(s, act); SysRuns(StepOf(s, act), rest))
    ensures SysRuns(s, [act] + rest) && SysRun(s, [act] + rest) == SysRun(StepOf(s, act), rest)
  {
    assert ([act] + rest)[1..] == rest;
  }

  // -------------------------------------------------------------------------
  // Waits end
  // -------------------------------------------------------------------------

  /** What a wait is for: enough space or data, or a close that this end looks at. */
  ghost predicate Met<T>(s: Sys<T>, x: Side, min: nat)
    requires s.ring.Shape()
  {
    s.Level(x) >= Max1(min) || s.Closed(x) || (x.Rx? && s.Closed(Tx))
  }

  /** Either look at the ring ends the wait exactly when what it is for is there. */
  lemma LooksExactly<T>(s: Sys<T>, x: Side)
    requires SysInv(s) && (s.At(x).wait.Checking? || s.At(x).wait.Rechecking?)
    ensures CanAct(s, Next(x))
    ensures StepOf(s, Next(x)).At(x).wait.Leaving? <==> Met(s, x, s.At(x).wait.min)
    ensures s.At(x).wait.Rechecking? && !Met(s, x, s.At(x).wait.min) ==>
      StepOf(s, Next(x)).At(x).wait == Parked(s.At(x).wait.min)
  {
    CanStopIs(s, x, s.At(x).wait.min);
  }

  /** How many more of its own accesses an end makes that has found what it waits for, or
      gives up. */
  function Left(w: WaitPc): nat {
    match w
    case Awake => 0
    case Resetting(_) => 1
    case Disarming(_) => 2
    case Leaving(_, _) => 3
    case Checking(_, _) => 4
    case Rechecking(_) => 4
    case _ => 5
  }

  /** On its way out: still to look, with what it waits for there, or already leaving. */
  ghost predicate Returning<T>(s: Sys<T>, x: Side) {
    && SysInv(s) && !s.At(x).wait.Parked?
    && (Left(s.At(x).wait) >= 4 ==> Met(s, x, s.At(x).wait.min))
  }

  /** A step that is not this end's own. An end that waits neither commits nor closes, nor
      starts another wait. */
  predicate Others<T>(act: Act<T>, x: Side) {
    act.Move? || act.Fire? || act.x != x || act.Nudge?
  }

  lemma OthersStep<T>(s: Sys<T>, x: Side, act: Act<T>)
    requires Returning(s, x) && CanAct(s, act) && Others(act, x)
    ensures SysInv(StepOf(s, act)) && Returning(StepOf(s, act), x)
    ensures StepOf(s, act).At(x).wait == s.At(x).wait
  {
    StepKeeps(s, act);
    match act
    case Move(a) => StepRefines(s.ring, a); LevelKept(s.ring, a); OthersMove(s, x, a);
    case Commit(y) => OthersCommit(s, x, y);
    case Close(y) => StepRefines(s.ring, CloseOf(y)); OthersClose(s, x, y);
    case _ => OthersRest(s, x, act);
  }

  lemma LevelKept<T>(r: Ring<T>, a: Action<T>)
    requires Inv(r) && Enabled(r, a) && !a.CommitWrite? && !a.CommitRead?
    ensures Inv(Step(r, a)) && Step(r, a).Data() == r.Data() && Step(r, a).Free() == r.Free()
  {
    StepRefines(r, a);
    assert Step(r, a).Pos() == r.Pos();
  }

  lemma OthersMove<T>(s: Sys<T>, x: Side, a: Action<T>)
    requires Returning(s, x) && CanAct(s, Move(a)) && Refines(s.ring, a, Step(s.ring, a))
    requires Step(s.ring, a).Data() == s.ring.Data() && Step(s.ring, a).Free() == s.ring.Free()
    requires SysInv(StepOf(s, Move(a)))
    ensures Returning(StepOf(s, Move(a)), x) && StepOf(s, Move(a)).At(x).wait == s.At(x).wait
  {
    assert s.ring.Shape() && Step(s.ring, a).Shape();
    hide Inv, SysInv, Step;
  }

  lemma OthersCommit<T>(s: Sys<T>, x: Side, y: Side)
    requires Returning(s, x) && CanAct(s, Commit(y)) && y != x && SysInv(StepOf(s, Commit(y)))
    ensures Returning(StepOf(s, Commit(y)), x) && StepOf(s, Commit(y)).At(x).wait == s.At(x).wait
  {
    StepRefines(s.ring, CommitOf(y));
    if y.Tx? { CommitWriteStep(s.ring); } else { CommitReadStep(s.ring); }
    var r' := Step(s.ring, CommitOf(y));
    assert s.ring.Shape() && r'.Shape();
    assert y.Tx? ==> r'.Data() >= s.ring.Data();
    assert y.Rx? ==> r'.Free() >= s.ring.Free() by { FreeIs(s.ring); FreeIs(r'); }
    hide Inv, SysInv, Step;
  }

  lemma FreeIs<T>(r: Ring<T>)
    requires Inv(r)
    ensures r.Free() + r.Data() == r.Cap()
  {}

  lemma OthersClose<T>(s: Sys<T>, x: Side, y: Side)
    requires Returning(s, x) && CanAct(s, Close(y)) && y != x && SysInv(StepOf(s, Close(y)))
    requires Refines(s.ring, CloseOf(y), Step(s.ring, CloseOf(y)))
    ensures Returning(StepOf(s, Close(y)), x) && StepOf(s, Close(y)).At(x).wait == s.At(x).wait
  {
    LevelKept(s.ring, CloseOf(y));
    var r' := Step(s.ring, CloseOf(y));
    assert s.ring.Shape() && r'.Shape();
    hide Inv, SysInv, Step;
  }

  lemma OthersRest<T>(s: Sys<T>, x: Side, act: Act<T>)
    requires Returning(s, x) && CanAct(s, act) && Others(act, x) && SysInv(StepOf(s, act))
    requires !act.Move? && !act.Commit? && !act.Close?
    ensures Returning(StepOf(s, act), x) && StepOf(s, act).At(x).wait == s.At(x).wait
  {
    RestKeepsRing(s, act);
    RestKeepsWait(s, x, act);
    assert s.ring.Shape() && StepOf(s, act).ring.Shape();
    hide Inv, SysInv, Step, StepOf, TryReadAt, TryWriteAt;
  }

  /** Arming and waiting leave positions and closed flags alone. */
  ghost predicate SameRing<T>(r: Ring<T>, r': Ring<T>) {
    r'.Pos() == r.Pos() && r'.word.txClosed == r.word.txClosed && r'.word.rxClosed == r.word.rxClosed
  }

  lemma RestKeepsRing<T>(s: Sys<T>, act: Act<T>)
    requires Inv(s.ring) && CanAct(s, act) && !act.Move? && !act.Commit? && !act.Close?
    ensures SameRing(s.ring, StepOf(s, act).ring)
  {
    assert s.ring.Shape();
    hide Inv, TryReadAt, TryWriteAt, FireNext;
    if act.Next? { WaitKeepsRing(s, act.x); }
    hide WaitStep, SameRing;
    assert act.Next? || StepOf(s, act).ring == s.ring;
    assert SameRing(s.ring, s.ring) by { SameRingItself(s.ring); }
  }

  lemma SameRingItself<T>(r: Ring<T>)
    ensures SameRing(r, r)
  {}

  lemma WaitKeepsRing<T>(s: Sys<T>, x: Side)
    requires s.ring.Shape()
    ensures SameRing(s.ring, WaitStep(s, x).ring)
  {
    hide TryReadAt, TryWriteAt;
  }

  lemma RestKeepsWait<T>(s: Sys<T>, x: Side, act: Act<T>)
    requires Inv(s.ring) && CanAct(s, act) && Others(act, x) && !act.Move? && !act.Commit? && !act.Close?
    ensures StepOf(s, act).At(x).wait == s.At(x).wait
  {
    assert s.ring.Shape();
    hide Inv, TryReadAt, TryWriteAt;
  }

  /** One own access brings it one step nearer. */
  lemma OwnStep<T>(s: Sys<T>, x: Side)
    requires Returning(s, x) && !s.At(x).wait.Awake?
    ensures CanAct(s, Next(x)) && SysInv(StepOf(s, Next(x))) && Returning(StepOf(s, Next(x)), x)
    ensures Left(StepOf(s, Next(x)).At(x).wait) + 1 == Left(s.At(x).wait)
  {
    StepKeeps(s, Next(x));
    OwnMove(s, x);
    RestKeepsRing(s, Next(x));
    assert s.ring.Shape() && StepOf(s, Next(x)).ring.Shape();
    hide Inv, SysInv, StepOf, TryReadAt, TryWriteAt;
  }

  lemma OwnMove<T>(s: Sys<T>, x: Side)
    requires Returning(s, x) && !s.At(x).wait.Awake?
    ensures CanAct(s, Next(x))
    ensures var w, w' := s.At(x).wait, StepOf(s, Next(x)).At(x).wait;
      !w'.Parked? && Left(w') + 1 == Left(w) && (Left(w') >= 4 ==> w'.min == w.min)
  {
    if s.At(x).wait.Checking? || s.At(x).wait.Rechecking? { LooksExactly(s, x); }
    assert s.ring.Shape();
    hide Inv, TryReadAt, TryWriteAt;
  }

  function Nexts<T>(acts: seq<Act<T>>, x: Side): nat {
    if acts == [] then 0 else (if acts[0] == Next(x) then 1 else 0) + Nexts(acts[1..], x)
  }

  /** A wait whose condition holds ends: however the steps of everybody else fall between
      its own, each own access brings it nearer, and after five at the most it is awake. */
  lemma {:induction false} WaitEnds<T>(s: Sys<T>, x: Side, acts: seq<Act<T>>)
    requires Returning(s, x) && SysRuns(s, acts)
    requires forall i :: 0 <= i < |acts| ==> acts[i] == Next(x) || Others(acts[i], x)
    ensures var s' := SysRun(s, acts);
      && Returning(s', x) && Left(s'.At(x).wait) + Nexts(acts, x) == Left(s.At(x).wait) <= 5
      && (Nexts(acts, x) == Left(s.At(x).wait) ==> Rested(s', x))
    decreases |acts|
  {
    if acts == [] {
      RestedWhenAwake(s, x);
    } else {
      assert SysInv(s);
      var s1 := StepOf(s, acts[0]);
      StepKeeps(s, acts[0]);
      assert CanAct(s, acts[0]) && SysRuns(s1, acts[1..]) && SysRun(s, acts) == SysRun(s1, acts[1..]);
      if acts[0] == Next(x) {
        assert !s.At(x).wait.Awake?;
        OwnStep(s, x);
      } else {
        OthersStep(s, x, acts[0]);
      }
      hide SysInv, Returning, StepOf, CanAct, Rested;
      WaitEnds(s1, x, acts[1..]);
    }
  }

  /** Awake with nothing left behind: no demand posted, no waiter, no standby bit. */
  ghost predicate Rested<T>(s: Sys<T>, x: Side) {
    s.At(x).wait.Awake? && s.At(x).demand == None && s.At(x).slot == None && !s.Armed(x)
  }

  lemma RestedWhenAwake<T>(s: Sys<T>, x: Side)
    requires SysInv(s)
    ensures Left(s.At(x).wait) == 0 ==> Rested(s, x)
  {}

  /** The end's future is polled. */
  ghost function Polled<T>(s: Sys<T>, x: Side): (s': Sys<T>)
    requires SysInv(s) && s.At(x).wait.Parked?
    ensures SysInv(s') && s'.ring == s.ring && s'.At(x).wait == Checking(s.At(x).wait.min, true)
  {
    StepKeeps(s, Poll(x));
    StepOf(s, Poll(x))
  }

  /** From parked to awake, in every state that a run reaches: while both ends are open and
      the demand of a parked end is met, the peer's going on wakes it, and polled then it
      returns with its fourth access, whatever else happens in between. */
  lemma ParkedWaitEnds<T>(s: Sys<T>, x: Side, more: seq<Act<T>>)
    requires SysInv(s) && s.At(x).wait.Parked? && s.Open() && s.Level(x) >= Max1(s.At(x).wait.min)
    requires SysRuns(Polled(FinishFire(s, Peer(x)), x), more)
    requires forall i :: 0 <= i < |more| ==> more[i] == Next(x) || Others(more[i], x)
    ensures FinishFire(s, Peer(x)).At(x).woken && Nexts(more, x) <= 4
    ensures Nexts(more, x) == 4 ==> Rested(SysRun(Polled(FinishFire(s, Peer(x)), x), more), x)
  {
    WaitEnds(Polled(FinishFire(s, Peer(x)), x), x, more);
  }

  /** A fire signals only for a demand that its load met, and only from an end that was not
      closed by then. */
  lemma FireIsEarned<T>(s: Sys<T>, y: Side)
    requires SysInv(s) && CanAct(s, Fire(y)) && StepOf(s, Fire(y)).At(y).fire.Signalling?
    ensures var f, demand := s.At(y).fire, s.At(Peer(y)).demand;
      f.Gated? && !f.close && demand.Some? && f.n >= Max1(demand.value)
  {}

  /** A wait that is given up, before its first look or while it is parked, leaves nothing
      behind either: it is awake after three own accesses, whatever else happens. */
  lemma DroppedWaitEnds<T>(s: Sys<T>, x: Side, more: seq<Act<T>>)
    requires SysInv(s) && CanAct(s, Drop(x)) && SysRuns(StepOf(s, Drop(x)), more)
    requires forall i :: 0 <= i < |more| ==> more[i] == Next(x) || Others(more[i], x)
    ensures SysInv(StepOf(s, Drop(x))) && Nexts(more, x) <= 3
    ensures Nexts(more, x) == 3 ==> Rested(SysRun(StepOf(s, Drop(x)), more), x)
  {
    StepKeeps(s, Drop(x));
    WaitEnds(StepOf(s, Drop(x)), x, more);
  }

  // -------------------------------------------------------------------------
  // The ring underneath
  // -------------------------------------------------------------------------

  /** What a step does to the ring: the move, commit or close it is, the one store to the
      standby bit that arms a wait, the one that disarms it, or nothing. */
  function OnRing<T>(s: Sys<T>, act: Act<T>): seq<Action<T>> {
    match act
    case Move(a) => [a]
    case Commit(x) => [CommitOf(x)]
    case Close(x) => [CloseOf(x)]
    case Next(x) =>
      if s.At(x).wait.Posted? then [SetStandby(x.Tx?, true)]
      else if s.At(x).wait.Disarming? then [SetStandby(x.Tx?, false)]
      else []
    case _ => []
  }

  lemma StepOnRing<T>(s: Sys<T>, act: Act<T>)
    requires SysInv(s) && CanAct(s, act)
    ensures Runs(s.ring, OnRing(s, act)) && StepOf(s, act).ring == Run(s.ring, OnRing(s, act))
  {
    var acts := OnRing(s, act);
    assert CanAct(s, act) && Inv(s.ring);
    RunNothing(s.ring);
    if acts != [] {
      assert Enabled(s.ring, acts[0]);
      StepRefines(s.ring, acts[0]);
      RunNothing(Step(s.ring, acts[0]));
      RunsCons(s.ring, acts[0], []);
      assert [acts[0]] + [] == acts;
    }
    hide Inv, SysInv, Runs, Run, TryReadAt, TryWriteAt;
  }

  /** The ring actions of a whole run. */
  ghost function AllOnRing<T>(s: Sys<T>, acts: seq<Act<T>>): seq<Action<T>>
    requires SysInv(s) && SysRuns(s, acts)
    decreases |acts|
  {
    if acts == [] then [] else
      StepKeeps(s, acts[0]);
      OnRing(s, acts[0]) + AllOnRing(StepOf(s, acts[0]), acts[1..])
  }

  lemma {:induction false} RunsAppend<T>(r: Ring<T>, acts: seq<Action<T>>, more: seq<Action<T>>)
    requires Inv(r) && Runs(r, acts) && Runs(Run(r, acts), more)
    ensures Runs(r, acts + more) && Run(r, acts + more) == Run(Run(r, acts), more)
    decreases |acts|
  {
    if acts == [] {
      assert acts + more == more;
      RunNothing(r);
    } else {
      RunUnfolds(r, acts);
      hide Inv, Step, Runs, Run;
      RunsAppend(Step(r, acts[0]), acts[1..], more);
      RunsCons(r, acts[0], acts[1..] + more);
      assert [acts[0]] + (acts[1..] + more) == acts + more;
    }
  }

  /** Waits and fires leave the ring alone but for the standby bits: every run of the two
      ends with all their waiting is a run of the ring machine, and ends with the same ring.
      So whatever holds of the ring over every interleaving holds here too. */
  lemma {:induction false} RunsOnRing<T>(s: Sys<T>, acts: seq<Act<T>>)
    requires SysInv(s) && SysRuns(s, acts)
    ensures Runs(s.ring, AllOnRing(s, acts)) && SysRun(s, acts).ring == Run(s.ring, AllOnRing(s, acts))
    decreases |acts|
  {
    if acts == [] {
      RunNothing(s.ring);
    } else {
      var s1 := StepOf(s, acts[0]);
      StepKeeps(s, acts[0]);
      StepOnRing(s, acts[0]);
      RunsOnRing(s1, acts[1..]);
      hide Inv, StepOf, OnRing, CanAct, Runs, Run;
      RunsAppend(s.ring, OnRing(s, acts[0]), AllOnRing(s1, acts[1..]));
    }
  }
}
