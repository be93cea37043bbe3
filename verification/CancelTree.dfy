/** Cancellation sources that form a tree. Each node's state changes only inside its
    lock; the callbacks that a cancellation takes out run afterwards, one by one,
    outside of it, while other threads cancel, register and spawn. */
module CancelTree {
  import opened Common

  // -------------------------------------------------------------------------
  // One node
  // -------------------------------------------------------------------------

  /** What a callback does: it cancels a child that it knows weakly, or it is the user's. */
  datatype Callback = Child(c: nat) | User(u: nat)

  datatype Entry = Entry(id: nat, cb: Callback)

  /** The state under one lock. `senders` are the pending cancellation futures. */
  datatype State = State(cancelled: bool, nextId: nat, callbacks: seq<Entry>, senders: seq<nat>)

  const FRESH: State := State(false, 0, [], [])

  /** The lock section of `cancel`, when it is the first. */
  function Cancelled(st: State): State {
    State(true, st.nextId, [], [])
  }

  function Registered(st: State, cb: Callback): State {
    if st.cancelled then st else st.(nextId := st.nextId + 1, callbacks := st.callbacks + [Entry(st.nextId, cb)])
  }

  function Without(entries: seq<Entry>, id: nat): seq<Entry> {
    if entries == [] then []
    else if entries[0].id == id then Without(entries[1..], id)
    else [entries[0]] + Without(entries[1..], id)
  }

  /** The entries that `Without` leaves out. */
  function Only(entries: seq<Entry>, id: nat): seq<Entry> {
    if entries == [] then []
    else if entries[0].id == id then [entries[0]] + Only(entries[1..], id)
    else Only(entries[1..], id)
  }

  function Unregistered(st: State, id: nat): State {
    st.(callbacks := Without(st.callbacks, id))
  }

  function Awaited(st: State, f: nat): State {
    if st.cancelled then st else st.(senders := st.senders + [f])
  }

  /** The node as the program holds it: each method is one lock section. */
  class Inner {
    var cancelled: bool
    var nextId: nat
    var callbacks: seq<Entry>
    var senders: seq<nat>

    constructor ()
      ensures St() == FRESH
    {
      cancelled, nextId, callbacks, senders := false, 0, [], [];
    }

    function St(): State
      reads this
    {
      State(cancelled, nextId, callbacks, senders)
    }

    /** Only the first call cancels; it resolves every pending future and comes away with
        the callbacks, which it has to run. */
    method Cancel() returns (won: bool, taken: seq<Entry>)
      modifies this
      ensures won == !old(cancelled) && taken == if won then old(callbacks) else []
      ensures St() == if won then Cancelled(old(St())) else old(St())
    {
      if cancelled { return false, []; }
      cancelled, senders := true, [];
      won, taken := true, callbacks;
      callbacks := [];
    }

    /** No id means that the caller has to run the callback itself. */
    method Register(cb: Callback) returns (id: Option<nat>)
      modifies this
      ensures St() == Registered(old(St()), cb)
      ensures id == if old(cancelled) then None else Some(old(nextId))
    {
      if cancelled { return None; }
      id := Some(nextId);
      nextId := nextId + 1;
      callbacks := callbacks + [Entry(id.value, cb)];
    }

    method Unregister(id: nat)
      modifies this
      ensures St() == Unregistered(old(St()), id)
    {
      var kept := [];
      for i := 0 to |callbacks|
        invariant kept + Without(callbacks[i..], id) == Without(callbacks, id)
        invariant St() == old(St())
      {
        if callbacks[i].id != id { kept := kept + [callbacks[i]]; }
      }
      callbacks := kept;
    }

    /** The future of sender `f`, unresolved as long as its sender is kept. */
    method CancelFuture(f: nat) returns (resolved: bool)
      modifies this
      ensures St() == Awaited(old(St()), f) && resolved == cancelled == old(cancelled)
    {
      resolved := cancelled;
      if !cancelled { senders := senders + [f]; }
    }
  }

  // -------------------------------------------------------------------------
  // The tree and its threads
  // -------------------------------------------------------------------------

  /** `alive` while a strong handle is left; `parent` is the node it was spawned from. */
  datatype Node = Node(st: State, alive: bool, parent: Option<nat>)

  /** What a thread has still to do, innermost first: callbacks it took, and user
      callbacks it is inside of. */
  datatype Work = Run(cb: Callback) | Inside(u: nat)

  /** `homes[u]` is where user callback `u` was registered, `futures[f]` where future `f`
      was made. `handles` are the registrations given out. `ran` and `gone` log the
      callbacks that ran and those removed before they could. */
  datatype Sys = Sys(nodes: seq<Node>, threads: seq<seq<Work>>, homes: seq<nat>, futures: seq<nat>,
                     handles: set<(nat, nat)>, ran: multiset<Callback>, gone: multiset<Callback>)

  datatype Act =
    | NewSource
    | Cancel(t: nat, n: nat)
    | Register(t: nat, n: nat)
    | Unregister(t: nat, n: nat, id: nat)   // a registration is dropped
    | Spawn(t: nat, n: nat)
    | Future(t: nat, n: nat)
    | Exec(t: nat)                          // a thread goes on with what it has to do
    | Drop(n: nat)                          // the last strong handle goes

  /** A thread makes calls when it has nothing else to do or from inside a user callback. */
  predicate Calls(s: Sys, t: nat) {
    t < |s.threads| && (s.threads[t] == [] || s.threads[t][0].Inside?)
  }

  predicate Alive(s: Sys, n: nat) {
    n < |s.nodes| && s.nodes[n].alive
  }

  predicate Enabled(s: Sys, a: Act) {
    match a
    case NewSource => true
    case Cancel(t, n) => Calls(s, t) && Alive(s, n)
    case Register(t, n) => Calls(s, t) && Alive(s, n)
    case Unregister(t, n, id) => Calls(s, t) && Alive(s, n) && (n, id) in s.handles
    case Spawn(t, n) => Calls(s, t) && Alive(s, n)
    case Future(t, n) => Calls(s, t) && Alive(s, n)
    case Exec(t) => t < |s.threads| && s.threads[t] != []
    case Drop(n) => Alive(s, n)
  }

  function Runs(entries: seq<Entry>): seq<Work> {
    seq(|entries|, i requires 0 <= i < |entries| => Run(entries[i].cb))
  }

  function With(s: Sys, n: nat, st: State, t: nat, ws: seq<Work>): Sys
    requires n < |s.nodes| && t < |s.threads|
  {
    s.(nodes := s.nodes[n := s.nodes[n].(st := st)], threads := s.threads[t := ws])
  }

  /** `cancel` on thread `t`, which has `ws` to do afterwards. */
  function CancelNode(s: Sys, n: nat, t: nat, ws: seq<Work>): Sys
    requires n < |s.nodes| && t < |s.threads|
  {
    var st := s.nodes[n].st;
    if st.cancelled then s.(threads := s.threads[t := ws])
    else With(s, n, Cancelled(st), t, Runs(st.callbacks) + ws)
  }

  /** `register` of `cb`: kept by the node, or run at once by the caller. */
  function RegisterAt(s: Sys, n: nat, t: nat, cb: Callback): Sys
    requires n < |s.nodes| && t < |s.threads|
  {
    var st := s.nodes[n].st;
    With(s, n, Registered(st, cb), t, (if st.cancelled then [Run(cb)] else []) + s.threads[t])
  }

  function Values(entries: seq<Entry>): multiset<Callback> {
    if entries == [] then multiset{} else multiset{entries[0].cb} + Values(entries[1..])
  }

  function Dead(node: Node): Node {
    Node(node.st.(callbacks := [], senders := []), false, node.parent)
  }

  function Step(s: Sys, a: Act): Sys
    requires Enabled(s, a)
  {
    match a
    case NewSource => s.(nodes := s.nodes + [Node(FRESH, true, None)])
    case Cancel(t, n) => CancelNode(s, n, t, s.threads[t])
    case Register(t, n) =>
      var st := s.nodes[n].st;
      RegisterAt(s, n, t, User(|s.homes|)).(
        homes := s.homes + [n],
        handles := if st.cancelled then s.handles else s.handles + {(n, st.nextId)})
    case Unregister(t, n, id) =>
      var st := s.nodes[n].st;
      With(s, n, Unregistered(st, id), t, s.threads[t]).(
        gone := s.gone + Values(Only(st.callbacks, id)))
    case Spawn(t, n) =>
      RegisterAt(s.(nodes := s.nodes + [Node(FRESH, true, Some(n))]), n, t, Child(|s.nodes|))
    case Future(t, n) =>
      With(s, n, Awaited(s.nodes[n].st, |s.futures|), t, s.threads[t]).(futures := s.futures + [n])
    case Exec(t) =>
      var rest := s.threads[t][1..];
      (match s.threads[t][0]
       case Inside(_) => s.(threads := s.threads[t := rest])
       case Run(User(u)) =>
         s.(threads := s.threads[t := [Inside(u)] + rest], ran := s.ran + multiset{User(u)})
       case Run(Child(c)) =>
         var next := if Alive(s, c) then CancelNode(s, c, t, rest) else s.(threads := s.threads[t := rest]);
         next.(ran := s.ran + multiset{Child(c)}))
    case Drop(n) =>
      s.(nodes := s.nodes[n := Dead(s.nodes[n])], gone := s.gone + Values(s.nodes[n].st.callbacks))
  }

  function Start(threads: nat): Sys {
    Sys([], seq(threads, _ => []), [], [], {}, multiset{}, multiset{})
  }

  // -------------------------------------------------------------------------
  // Counting
  // -------------------------------------------------------------------------

  function One(b: bool): nat { if b then 1 else 0 }

  /** How often a node holds `cb`, and how often a thread has still to run it. */
  function Kept(node: Node, cb: Callback): nat { Values(node.st.callbacks)[cb] }

  function ToRun(ws: seq<Work>, cb: Callback): nat {
    if ws == [] then 0 else One(ws[0] == Run(cb)) + ToRun(ws[1..], cb)
  }

  function KeptBy(nodes: seq<Node>, cb: Callback): nat {
    if nodes == [] then 0 else Kept(nodes[0], cb) + KeptBy(nodes[1..], cb)
  }

  function InHands(threads: seq<seq<Work>>, cb: Callback): nat {
    if threads == [] then 0 else ToRun(threads[0], cb) + InHands(threads[1..], cb)
  }

  function Issued(s: Sys, cb: Callback): nat {
    match cb
    case Child(c) => One(c < |s.nodes| && s.nodes[c].parent.Some?)
    case User(u) => One(u < |s.homes|)
  }

  lemma {:induction false} KeptByUpdate(nodes: seq<Node>, n: nat, node: Node, cb: Callback)
    requires n < |nodes|
    ensures KeptBy(nodes[n := node], cb) + Kept(nodes[n], cb) == KeptBy(nodes, cb) + Kept(node, cb)
  {
    hide Kept;
    if n > 0 {
      KeptByUpdate(nodes[1..], n - 1, node, cb);
      assert nodes[n := node][1..] == nodes[1..][n - 1 := node];
    } else {
      assert nodes[n := node][1..] == nodes[1..];
    }
  }

  lemma {:induction false} KeptByMore(nodes: seq<Node>, node: Node, cb: Callback)
    ensures KeptBy(nodes + [node], cb) == KeptBy(nodes, cb) + Kept(node, cb)
  {
    hide Kept;
    if nodes == [] {
      assert KeptBy([node], cb) == Kept(node, cb) + KeptBy([], cb);
      assert nodes + [node] == [node];
    } else {
      KeptByMore(nodes[1..], node, cb);
      assert (nodes + [node])[1..] == nodes[1..] + [node];
    }
  }

  lemma {:induction false} KeptByIsSome(nodes: seq<Node>, n: nat, cb: Callback)
    requires n < |nodes|
    ensures KeptBy(nodes, cb) >= Kept(nodes[n], cb)
  {
    hide Kept;
    if n > 0 { KeptByIsSome(nodes[1..], n - 1, cb); }
  }

  lemma {:induction false} KeptByNone(nodes: seq<Node>, cb: Callback)
    requires forall n :: 0 <= n < |nodes| ==> Kept(nodes[n], cb) == 0
    ensures KeptBy(nodes, cb) == 0
  {
    hide Kept;
    if nodes != [] {
      forall n | 0 <= n < |nodes[1..]| ensures Kept(nodes[1..][n], cb) == 0 { assert nodes[1..][n] == nodes[n + 1]; }
      KeptByNone(nodes[1..], cb);
    }
  }

  lemma {:induction false} InHandsUpdate(threads: seq<seq<Work>>, t: nat, ws: seq<Work>, cb: Callback)
    requires t < |threads|
    ensures InHands(threads[t := ws], cb) + ToRun(threads[t], cb) == InHands(threads, cb) + ToRun(ws, cb)
  {
    hide ToRun;
    if t > 0 {
      InHandsUpdate(threads[1..], t - 1, ws, cb);
      assert threads[t := ws][1..] == threads[1..][t - 1 := ws];
    } else {
      assert threads[t := ws][1..] == threads[1..];
    }
  }

  lemma {:induction false} InHandsNone(threads: seq<seq<Work>>, cb: Callback)
    requires forall t :: 0 <= t < |threads| ==> threads[t] == []
    ensures InHands(threads, cb) == 0
  {
    if threads != [] {
      forall t | 0 <= t < |threads[1..]| ensures threads[1..][t] == [] { assert threads[1..][t] == threads[t + 1]; }
      InHandsNone(threads[1..], cb);
    }
  }

  lemma {:induction false} ToRunTaken(entries: seq<Entry>, ws: seq<Work>, cb: Callback)
    ensures ToRun(Runs(entries) + ws, cb) == Values(entries)[cb] + ToRun(ws, cb)
  {
    if entries == [] {
      assert Runs(entries) + ws == ws;
    } else {
      ToRunTaken(entries[1..], ws, cb);
      assert (Runs(entries) + ws)[1..] == Runs(entries[1..]) + ws;
    }
  }

  lemma ToRunOne(w: Work, ws: seq<Work>, cb: Callback)
    ensures ToRun([w] + ws, cb) == One(w == Run(cb)) + ToRun(ws, cb)
  {
    assert ([w] + ws)[1..] == ws;
  }

  lemma {:induction false} ValuesMore(entries: seq<Entry>, e: Entry, cb: Callback)
    ensures Values(entries + [e])[cb] == Values(entries)[cb] + One(e.cb == cb)
  {
    hide Values;
    if entries == [] {
      ValuesCons(e, [], cb);
      assert entries + [e] == [e] + [];
    } else {
      var head, rest := entries[0], entries[1..];
      ValuesMore(rest, e, cb);
      ValuesCons(head, rest, cb);
      ValuesCons(head, rest + [e], cb);
      assert entries == [head] + rest && entries + [e] == [head] + (rest + [e]);
    }
  }

  lemma {:induction false} ValuesSplit(entries: seq<Entry>, id: nat, cb: Callback)
    ensures Values(Without(entries, id))[cb] + Values(Only(entries, id))[cb] == Values(entries)[cb]
  {
    assert Values([])[cb] == 0;
    hide Values;
    if entries != [] {
      var e, rest := entries[0], entries[1..];
      ValuesSplit(rest, id, cb);
      assert entries == [e] + rest;
      ValuesCons(e, rest, cb);
      if e.id == id { ValuesCons(e, Only(rest, id), cb); } else { ValuesCons(e, Without(rest, id), cb); }
    }
  }

  lemma {:induction false} SplitMembers(entries: seq<Entry>, id: nat)
    ensures forall e :: e in Without(entries, id) <==> e in entries && e.id != id
    ensures forall e :: e in Only(entries, id) <==> e in entries && e.id == id
  {
    if entries != [] { SplitMembers(entries[1..], id); }
  }

  lemma ValuesCons(e: Entry, rest: seq<Entry>, cb: Callback)
    ensures Values([e] + rest)[cb] == One(e.cb == cb) + Values(rest)[cb]
  {
    assert ([e] + rest)[1..] == rest;
  }

  lemma {:induction false} HeldIsEntry(entries: seq<Entry>, cb: Callback)
    ensures Values(entries)[cb] > 0 <==> exists e :: e in entries && e.cb == cb
  {
    if entries != [] {
      HeldIsEntry(entries[1..], cb);
      assert entries == [entries[0]] + entries[1..];
      ValuesCons(entries[0], entries[1..], cb);
      hide Values;
    }
  }

  // -------------------------------------------------------------------------
  // Invariant
  // -------------------------------------------------------------------------

  /** Every callback handed to `register` or made by a spawn is in one place: kept by a
      node, in the hands of a running call, run, or removed. */
  ghost predicate Balanced(s: Sys, cb: Callback) {
    KeptBy(s.nodes, cb) + InHands(s.threads, cb) + s.ran[cb] + s.gone[cb] == Issued(s, cb)
  }

  ghost predicate EntryOk(s: Sys, n: nat, e: Entry)
    requires n < |s.nodes|
  {
    && e.id < s.nodes[n].st.nextId
    && match e.cb
       case Child(c) => c < |s.nodes| && s.nodes[c].parent == Some(n) && (n, e.id) !in s.handles
       case User(u) => u < |s.homes| && s.homes[u] == n
  }

  ghost predicate NodeOk(s: Sys, n: nat)
    requires n < |s.nodes|
  {
    var node := s.nodes[n];
    && (node.st.cancelled || !node.alive ==> node.st.callbacks == [] && node.st.senders == [])
    && (forall e :: e in node.st.callbacks ==> EntryOk(s, n, e))
    && (forall f :: f in node.st.senders ==> f < |s.futures| && s.futures[f] == n)
  }

  ghost predicate Shape(s: Sys) {
    && (forall n :: 0 <= n < |s.nodes| ==> NodeOk(s, n))
    && (forall h :: h in s.handles ==> h.0 < |s.nodes| && h.1 < s.nodes[h.0].st.nextId)
    && (forall u :: 0 <= u < |s.homes| ==> s.homes[u] < |s.nodes|)
    && (forall f :: 0 <= f < |s.futures| ==> s.futures[f] < |s.nodes|)
    && (forall f :: 0 <= f < |s.futures| ==> Pending(s, f))
  }

  /** A future of a live node that is not cancelled is unresolved. */
  ghost predicate Pending(s: Sys, f: nat)
    requires f < |s.futures| && s.futures[f] < |s.nodes|
  {
    var node := s.nodes[s.futures[f]];
    node.alive && !node.st.cancelled ==> f in node.st.senders
  }

  /** A live child is cancelled with its parent, or the call that will cancel it is on
      its way; until then the parent keeps the callback for it. */
  ghost predicate Linked(s: Sys, c: nat)
    requires c < |s.nodes|
  {
    s.nodes[c].parent.Some? ==>
      var p := s.nodes[c].parent.value;
      && p < c
      && (s.nodes[c].alive && s.nodes[p].st.cancelled ==>
            s.nodes[c].st.cancelled || InHands(s.threads, Child(c)) > 0)
      && (s.nodes[c].alive && s.nodes[p].alive && !s.nodes[p].st.cancelled ==>
            Kept(s.nodes[p], Child(c)) > 0)
  }

  ghost predicate Inv(s: Sys) {
    && Shape(s)
    && (forall cb :: Balanced(s, cb))
    && (forall c :: 0 <= c < |s.nodes| ==> Linked(s, c))
  }

  lemma StartInv(threads: nat)
    ensures Inv(Start(threads))
  {
    forall cb ensures Balanced(Start(threads), cb) { InHandsNone(Start(threads).threads, cb); }
  }

  // -------------------------------------------------------------------------
  // What each step does to the counts
  // -------------------------------------------------------------------------

  lemma WithCounts(s: Sys, n: nat, st: State, t: nat, ws: seq<Work>, cb: Callback)
    requires n < |s.nodes| && t < |s.threads|
    ensures var s' := With(s, n, st, t, ws);
      && KeptBy(s'.nodes, cb) + Values(s.nodes[n].st.callbacks)[cb] == KeptBy(s.nodes, cb) + Values(st.callbacks)[cb]
      && InHands(s'.threads, cb) + ToRun(s.threads[t], cb) == InHands(s.threads, cb) + ToRun(ws, cb)
  {
    hide Values, ToRun, KeptBy, InHands;
    KeptByUpdate(s.nodes, n, s.nodes[n].(st := st), cb);
    InHandsUpdate(s.threads, t, ws, cb);
  }

  lemma CancelCounts(s: Sys, n: nat, t: nat, ws: seq<Work>, cb: Callback)
    requires n < |s.nodes| && t < |s.threads|
    ensures var s' := CancelNode(s, n, t, ws);
      var taken := if s.nodes[n].st.cancelled then 0 else Values(s.nodes[n].st.callbacks)[cb];
      && KeptBy(s'.nodes, cb) + taken == KeptBy(s.nodes, cb)
      && InHands(s'.threads, cb) + ToRun(s.threads[t], cb) == InHands(s.threads, cb) + ToRun(ws, cb) + taken
  {
    var st := s.nodes[n].st;
    assert Values([])[cb] == 0;
    hide Values, ToRun, KeptBy, InHands;
    ToRunTaken(st.callbacks, ws, cb);
    InHandsUpdate(s.threads, t, ws, cb);
    WithCounts(s, n, Cancelled(st), t, Runs(st.callbacks) + ws, cb);
  }

  lemma RegisterCounts(s: Sys, n: nat, t: nat, added: Callback, cb: Callback)
    requires n < |s.nodes| && t < |s.threads|
    ensures var s' := RegisterAt(s, n, t, added);
      var here := One(!s.nodes[n].st.cancelled && added == cb);
      && KeptBy(s'.nodes, cb) == KeptBy(s.nodes, cb) + here
      && InHands(s'.threads, cb) + here == InHands(s.threads, cb) + One(added == cb)
  {
    var st, ws := s.nodes[n].st, s.threads[t];
    hide Values, ToRun, KeptBy, InHands;
    ValuesMore(st.callbacks, Entry(st.nextId, added), cb);
    ToRunOne(Run(added), ws, cb);
    assert [] + ws == ws;
    WithCounts(s, n, Registered(st, added), t, (if st.cancelled then [Run(added)] else []) + ws, cb);
  }

  lemma CancelFrame(s: Sys, n: nat, t: nat, ws: seq<Work>, cb: Callback)
    requires n < |s.nodes| && t < |s.threads|
    ensures var s' := CancelNode(s, n, t, ws);
      && s' == s.(nodes := s'.nodes, threads := s'.threads) && |s'.nodes| == |s.nodes|
      && Issued(s', cb) == Issued(s, cb)
  {}

  lemma RegisterFrame(s: Sys, n: nat, t: nat, added: Callback, cb: Callback)
    requires n < |s.nodes| && t < |s.threads|
    ensures var s' := RegisterAt(s, n, t, added);
      && s' == s.(nodes := s'.nodes, threads := s'.threads) && |s'.nodes| == |s.nodes|
      && Issued(s', cb) == Issued(s, cb)
  {}

  // Each step keeps every callback in one place.

  lemma BalanceCancel(s: Sys, t: nat, n: nat, cb: Callback)
    requires Enabled(s, Cancel(t, n)) && Balanced(s, cb)
    ensures Balanced(Step(s, Cancel(t, n)), cb)
  {
    hide Values, ToRun, KeptBy, InHands, Kept;
    CancelCounts(s, n, t, s.threads[t], cb);
  }

  lemma BalanceRegister(s: Sys, t: nat, n: nat, cb: Callback)
    requires Enabled(s, Register(t, n)) && Balanced(s, cb)
    ensures Balanced(Step(s, Register(t, n)), cb)
  {
    hide Values, ToRun, KeptBy, InHands, Kept;
    RegisterCounts(s, n, t, User(|s.homes|), cb);
  }

  lemma BalanceUnregister(s: Sys, t: nat, n: nat, id: nat, cb: Callback)
    requires Enabled(s, Unregister(t, n, id)) && Balanced(s, cb)
    ensures Balanced(Step(s, Unregister(t, n, id)), cb)
  {
    hide Values, ToRun, KeptBy, InHands, Kept, Without, Only;
    var st := s.nodes[n].st;
    ValuesSplit(st.callbacks, id, cb);
    WithCounts(s, n, Unregistered(st, id), t, s.threads[t], cb);
  }

  lemma BalanceSpawn(s: Sys, t: nat, n: nat, cb: Callback)
    requires Enabled(s, Spawn(t, n)) && Balanced(s, cb)
    ensures Balanced(Step(s, Spawn(t, n)), cb)
  {
    assert Values([])[cb] == 0;
    hide Values, ToRun, KeptBy, InHands;
    var child := Node(FRESH, true, Some(n));
    KeptByMore(s.nodes, child, cb);
    hide Kept;
    var grown := s.(nodes := s.nodes + [child]);
    GrownIssued(s, child, cb);
    hide RegisterAt, Issued, Alive, Calls;
    RegisterCounts(grown, n, t, Child(|s.nodes|), cb);
    RegisterFrame(grown, n, t, Child(|s.nodes|), cb);
  }

  lemma GrownIssued(s: Sys, child: Node, cb: Callback)
    requires child.parent.Some?
    ensures Issued(s.(nodes := s.nodes + [child]), cb) == Issued(s, cb) + One(cb == Child(|s.nodes|))
  {}

  lemma BalanceFuture(s: Sys, t: nat, n: nat, cb: Callback)
    requires Enabled(s, Future(t, n)) && Balanced(s, cb)
    ensures Balanced(Step(s, Future(t, n)), cb)
  {
    hide Values, ToRun, KeptBy, InHands, Kept;
    WithCounts(s, n, Awaited(s.nodes[n].st, |s.futures|), t, s.threads[t], cb);
  }

  lemma BalanceDrop(s: Sys, n: nat, cb: Callback)
    requires Enabled(s, Drop(n)) && Balanced(s, cb)
    ensures Balanced(Step(s, Drop(n)), cb)
  {
    DeadKeeps(s.nodes[n], cb);
    DropFrame(s, n, cb);
    hide Values, ToRun, KeptBy, InHands, Kept, Dead, Issued, Step;
    KeptByUpdate(s.nodes, n, Dead(s.nodes[n]), cb);
  }

  lemma DropFrame(s: Sys, n: nat, cb: Callback)
    requires Alive(s, n)
    ensures var s' := Step(s, Drop(n));
      && s'.nodes == s.nodes[n := Dead(s.nodes[n])] && s'.threads == s.threads && s'.ran == s.ran
      && s'.gone[cb] == s.gone[cb] + Values(s.nodes[n].st.callbacks)[cb] && Issued(s', cb) == Issued(s, cb)
  {
    hide Values;
  }

  lemma DeadKeeps(node: Node, cb: Callback)
    ensures Kept(Dead(node), cb) == 0 && Dead(node).parent == node.parent
    ensures Kept(node, cb) == Values(node.st.callbacks)[cb]
  {}

  lemma BalanceUserCode(s: Sys, t: nat, cb: Callback)
    requires Enabled(s, Exec(t)) && Balanced(s, cb)
    requires s.threads[t][0].Inside? || s.threads[t][0].cb.User?
    ensures Balanced(Step(s, Exec(t)), cb)
  {
    var w, rest := s.threads[t][0], s.threads[t][1..];
    assert s.threads[t] == [w] + rest;
    hide Values, ToRun, KeptBy, InHands, Kept;
    ToRunOne(w, rest, cb);
    InHandsUpdate(s.threads, t, rest, cb);
    if w.Run? {
      ToRunOne(Inside(w.cb.u), rest, cb);
      InHandsUpdate(s.threads, t, [Inside(w.cb.u)] + rest, cb);
    }
  }

  lemma BalanceChild(s: Sys, t: nat, c: nat, cb: Callback)
    requires Enabled(s, Exec(t)) && Balanced(s, cb) && s.threads[t][0] == Run(Child(c))
    ensures Balanced(Step(s, Exec(t)), cb)
  {
    if Alive(s, c) { BalanceLiveChild(s, t, c, cb); } else { BalanceDeadChild(s, t, c, cb); }
  }

  lemma BalanceDeadChild(s: Sys, t: nat, c: nat, cb: Callback)
    requires Enabled(s, Exec(t)) && Balanced(s, cb) && s.threads[t][0] == Run(Child(c)) && !Alive(s, c)
    ensures Balanced(Step(s, Exec(t)), cb)
  {
    var rest := s.threads[t][1..];
    assert s.threads[t] == [Run(Child(c))] + rest;
    hide Values, ToRun, KeptBy, InHands, Kept;
    ToRunOne(Run(Child(c)), rest, cb);
    InHandsUpdate(s.threads, t, rest, cb);
  }

  lemma BalanceLiveChild(s: Sys, t: nat, c: nat, cb: Callback)
    requires Enabled(s, Exec(t)) && Balanced(s, cb) && s.threads[t][0] == Run(Child(c)) && Alive(s, c)
    ensures Balanced(Step(s, Exec(t)), cb)
  {
    var rest := s.threads[t][1..];
    assert s.threads[t] == [Run(Child(c))] + rest;
    hide Values, ToRun, KeptBy, InHands, Kept, CancelNode, Issued;
    ToRunOne(Run(Child(c)), rest, cb);
    CancelCounts(s, c, t, rest, cb);
    CancelFrame(s, c, t, rest, cb);
    var next := CancelNode(s, c, t, rest);
    SameIssued(next, next.(ran := s.ran + multiset{Child(c)}), cb);
  }

  lemma SameIssued(s: Sys, s': Sys, cb: Callback)
    requires s'.homes == s.homes && s'.nodes == s.nodes
    ensures Issued(s', cb) == Issued(s, cb)
  {}

  lemma BalanceKeeps(s: Sys, a: Act, cb: Callback)
    requires Balanced(s, cb) && Enabled(s, a)
    ensures Balanced(Step(s, a), cb)
  {
    hide Balanced, Step;
    match a {
      case NewSource => BalanceNew(s, cb);
      case Cancel(t, n) => BalanceCancel(s, t, n, cb);
      case Register(t, n) => BalanceRegister(s, t, n, cb);
      case Unregister(t, n, id) => BalanceUnregister(s, t, n, id, cb);
      case Spawn(t, n) => BalanceSpawn(s, t, n, cb);
      case Future(t, n) => BalanceFuture(s, t, n, cb);
      case Drop(n) => BalanceDrop(s, n, cb);
      case Exec(t) =>
        var w := s.threads[t][0];
        if w.Inside? || w.cb.User? { BalanceUserCode(s, t, cb); } else { BalanceChild(s, t, w.cb.c, cb); }
    }
  }

  lemma BalanceNew(s: Sys, cb: Callback)
    requires Balanced(s, cb)
    ensures Balanced(Step(s, NewSource), cb)
  {
    assert Values([])[cb] == 0;
    hide Values, ToRun, KeptBy, InHands;
    KeptByMore(s.nodes, Node(FRESH, true, None), cb);
  }

  // -------------------------------------------------------------------------
  // Shape
  // -------------------------------------------------------------------------

  /** Node `m` may have changed, nodes may have been added, logs have grown. */
  ghost predicate Extends(s: Sys, s': Sys, m: nat) {
    && m < |s.nodes| <= |s'.nodes| && s.homes <= s'.homes && s.futures <= s'.futures
    && (forall n :: 0 <= n < |s.nodes| && n != m ==> s'.nodes[n] == s.nodes[n])
    && (forall n :: |s.nodes| <= n < |s'.nodes| ==> s'.nodes[n].st == FRESH)
    && s'.nodes[m].parent == s.nodes[m].parent && s.nodes[m].st.nextId <= s'.nodes[m].st.nextId
    && (forall h :: h in s'.handles ==> h in s.handles || h == (m, s.nodes[m].st.nextId))
  }

  ghost predicate OpenStays(s: Sys, s': Sys, m: nat)
    requires m < |s.nodes| && m < |s'.nodes|
  {
    s'.nodes[m].alive && !s'.nodes[m].st.cancelled ==>
      s.nodes[m].alive && !s.nodes[m].st.cancelled && s.nodes[m].st.senders <= s'.nodes[m].st.senders
  }

  lemma OtherNode(s: Sys, s': Sys, m: nat, n: nat)
    requires Shape(s) && Extends(s, s', m) && n < |s.nodes| && n != m
    ensures NodeOk(s', n)
  {
    assert NodeOk(s, n);
    forall e | e in s'.nodes[n].st.callbacks ensures EntryOk(s', n, e) { assert EntryOk(s, n, e); }
  }

  /** It is enough to look at the changed node and at what is new. */
  lemma ShapeFrom(s: Sys, s': Sys, m: nat)
    requires Shape(s) && Extends(s, s', m) && NodeOk(s', m) && OpenStays(s, s', m)
    requires forall h :: h in s'.handles && h !in s.handles ==> h.1 < s'.nodes[m].st.nextId
    requires forall u :: |s.homes| <= u < |s'.homes| ==> s'.homes[u] == m
    requires forall f :: |s.futures| <= f < |s'.futures| ==> s'.futures[f] == m && Pending(s', f)
    ensures Shape(s')
  {
    forall n | 0 <= n < |s'.nodes| ensures NodeOk(s', n) {
      if n < |s.nodes| && n != m { OtherNode(s, s', m, n); }
    }
    forall f | 0 <= f < |s'.futures| ensures s'.futures[f] < |s'.nodes| && Pending(s', f) {
      if f < |s.futures| { assert Pending(s, f) && s'.futures[f] == s.futures[f]; }
    }
    hide NodeOk, Pending;
    assert forall u :: 0 <= u < |s.homes| ==> s'.homes[u] == s.homes[u];
  }

  lemma OldEntries(s: Sys, s': Sys, m: nat)
    requires Shape(s) && Extends(s, s', m)
    ensures forall e :: e in s.nodes[m].st.callbacks ==> EntryOk(s', m, e)
  {
    assert NodeOk(s, m);
    forall e | e in s.nodes[m].st.callbacks ensures EntryOk(s', m, e) { assert EntryOk(s, m, e); }
  }

  lemma ShapeCancel(s: Sys, n: nat, t: nat, ws: seq<Work>)
    requires Shape(s) && Alive(s, n) && t < |s.threads|
    ensures Shape(CancelNode(s, n, t, ws))
  {
    assert NodeOk(s, n);
    var s' := CancelNode(s, n, t, ws);
    OldEntries(s, s', n);
    ShapeFrom(s, s', n);
  }

  lemma ShapeRegister(s: Sys, t: nat, n: nat)
    requires Shape(s) && Enabled(s, Register(t, n))
    ensures Shape(Step(s, Register(t, n)))
  {
    assert NodeOk(s, n);
    var s' := Step(s, Register(t, n));
    OldEntries(s, s', n);
    ShapeFrom(s, s', n);
  }

  lemma ShapeSpawn(s: Sys, t: nat, n: nat)
    requires Shape(s) && Enabled(s, Spawn(t, n))
    ensures Shape(Step(s, Spawn(t, n)))
  {
    assert NodeOk(s, n);
    var s' := Step(s, Spawn(t, n));
    OldEntries(s, s', n);
    ShapeFrom(s, s', n);
  }

  lemma ShapeUnregister(s: Sys, t: nat, n: nat, id: nat)
    requires Shape(s) && Enabled(s, Unregister(t, n, id))
    ensures Shape(Step(s, Unregister(t, n, id)))
  {
    assert NodeOk(s, n);
    var s' := Step(s, Unregister(t, n, id));
    SplitMembers(s.nodes[n].st.callbacks, id);
    OldEntries(s, s', n);
    hide Without, Only, Values;
    ShapeFrom(s, s', n);
  }

  lemma ShapeFuture(s: Sys, t: nat, n: nat)
    requires Shape(s) && Enabled(s, Future(t, n))
    ensures Shape(Step(s, Future(t, n)))
  {
    assert NodeOk(s, n);
    var s' := Step(s, Future(t, n));
    OldEntries(s, s', n);
    ShapeFrom(s, s', n);
  }

  lemma ShapeDrop(s: Sys, n: nat)
    requires Shape(s) && Enabled(s, Drop(n))
    ensures Shape(Step(s, Drop(n)))
  {
    assert NodeOk(s, n);
    ShapeFrom(s, Step(s, Drop(n)), n);
  }

  lemma ShapeNew(s: Sys)
    requires Shape(s)
    ensures Shape(Step(s, NewSource))
  {
    var s' := Step(s, NewSource);
    forall n | 0 <= n < |s.nodes| ensures NodeOk(s', n) {
      assert NodeOk(s, n);
      forall e | e in s.nodes[n].st.callbacks ensures EntryOk(s', n, e) { assert EntryOk(s, n, e); }
    }
    forall f | 0 <= f < |s.futures| ensures Pending(s', f) { assert Pending(s, f); }
  }

  /** Only nodes and logs matter to the shape. */
  lemma ShapeSame(s: Sys, s': Sys)
    requires Shape(s) && s'.nodes == s.nodes && s'.homes == s.homes
    requires s'.futures == s.futures && s'.handles == s.handles
    ensures Shape(s')
  {
    forall n | 0 <= n < |s.nodes| ensures NodeOk(s', n) {
      assert NodeOk(s, n);
      forall e | e in s.nodes[n].st.callbacks ensures EntryOk(s', n, e) { assert EntryOk(s, n, e); }
    }
    forall f | 0 <= f < |s.futures| ensures Pending(s', f) { assert Pending(s, f); }
  }

  lemma ShapeExec(s: Sys, t: nat)
    requires Shape(s) && Enabled(s, Exec(t))
    ensures Shape(Step(s, Exec(t)))
  {
    var w, rest := s.threads[t][0], s.threads[t][1..];
    if w.Run? && w.cb.Child? && Alive(s, w.cb.c) {
      ShapeCancel(s, w.cb.c, t, rest);
      hide Shape, CancelNode;
      ShapeSame(CancelNode(s, w.cb.c, t, rest), Step(s, Exec(t)));
    } else {
      hide Shape;
      ShapeSame(s, Step(s, Exec(t)));
    }
  }

  lemma ShapeKeeps(s: Sys, a: Act)
    requires Shape(s) && Enabled(s, a)
    ensures Shape(Step(s, a))
  {
    hide Shape;
    match a {
      case NewSource => ShapeNew(s);
      case Cancel(t, n) => ShapeCancel(s, n, t, s.threads[t]);
      case Register(t, n) => ShapeRegister(s, t, n);
      case Unregister(t, n, id) => ShapeUnregister(s, t, n, id);
      case Spawn(t, n) => ShapeSpawn(s, t, n);
      case Future(t, n) => ShapeFuture(s, t, n);
      case Exec(t) => ShapeExec(s, t);
      case Drop(n) => ShapeDrop(s, n);
    }
  }

  // -------------------------------------------------------------------------
  // Links
  // -------------------------------------------------------------------------

  /** What keeps a link: the parent's callback is never lost while the parent can still
      be cancelled, and a cancelled parent's child has a call on its way. */
  lemma LinkStays(s: Sys, s': Sys, c: nat)
    requires c < |s.nodes| <= |s'.nodes| && Linked(s, c) && s'.nodes[c].parent == s.nodes[c].parent
    requires s'.nodes[c].alive ==> s.nodes[c].alive
    requires s.nodes[c].st.cancelled ==> s'.nodes[c].st.cancelled
    requires s.nodes[c].parent.Some? && s'.nodes[c].alive ==>
      var p := s.nodes[c].parent.value;
      && (s'.nodes[p].alive ==> s.nodes[p].alive)
      && (s'.nodes[p].st.cancelled && !s'.nodes[c].st.cancelled ==>
            InHands(s'.threads, Child(c)) > 0
            || (s.nodes[p].st.cancelled && InHands(s'.threads, Child(c)) >= InHands(s.threads, Child(c))))
      && (s'.nodes[p].alive && !s'.nodes[p].st.cancelled ==>
            !s.nodes[p].st.cancelled && Kept(s'.nodes[p], Child(c)) >= Kept(s.nodes[p], Child(c)))
    ensures Linked(s', c)
  {
    hide InHands, Kept;
  }

  lemma LinkCancel(s: Sys, n: nat, t: nat, ws: seq<Work>, c: nat)
    requires Alive(s, n) && t < |s.threads| && c < |s.nodes| && Linked(s, c)
    requires c != n ==> ToRun(ws, Child(c)) == ToRun(s.threads[t], Child(c))
    ensures Linked(CancelNode(s, n, t, ws), c)
  {
    var s' := CancelNode(s, n, t, ws);
    CancelCounts(s, n, t, ws, Child(c));
    KeptIs(s.nodes[n], Child(c));
    hide InHands, Kept, ToRun, Values, KeptBy, Runs;
    LinkStays(s, s', c);
  }

  lemma KeptIs(node: Node, cb: Callback)
    ensures Kept(node, cb) == Values(node.st.callbacks)[cb]
  {}

  lemma LinkRegister(s: Sys, n: nat, t: nat, cb: Callback, c: nat)
    requires Alive(s, n) && t < |s.threads| && c < |s.nodes| && Linked(s, c)
    ensures Linked(RegisterAt(s, n, t, cb), c)
  {
    var s', st := RegisterAt(s, n, t, cb), s.nodes[n].st;
    RegisterCounts(s, n, t, cb, Child(c));
    ValuesMore(st.callbacks, Entry(st.nextId, cb), Child(c));
    KeptIs(s.nodes[n], Child(c));
    KeptIs(s'.nodes[n], Child(c));
    hide InHands, Kept, ToRun, Values, KeptBy;
    LinkStays(s, s', c);
  }

  /** A child is linked as soon as its parent has its callback, or its thread. */
  lemma LinkSpawned(s: Sys, n: nat, t: nat)
    requires Alive(s, n) && t < |s.threads|
    ensures Linked(Spawned(s, n, t), |s.nodes|)
  {
    var c, child, st := |s.nodes|, Node(FRESH, true, Some(n)), s.nodes[n].st;
    var grown := s.(nodes := s.nodes + [child]);
    var s' := RegisterAt(grown, n, t, Child(c));
    RegisterCounts(grown, n, t, Child(c), Child(c));
    ValuesMore(st.callbacks, Entry(st.nextId, Child(c)), Child(c));
    KeptIs(s'.nodes[n], Child(c));
    hide InHands, Kept, ToRun, Values, KeptBy;
  }

  function Spawned(s: Sys, n: nat, t: nat): Sys
    requires n < |s.nodes| && t < |s.threads|
  {
    RegisterAt(s.(nodes := s.nodes + [Node(FRESH, true, Some(n))]), n, t, Child(|s.nodes|))
  }

  lemma LinkGrown(s: Sys, node: Node, c: nat)
    requires c < |s.nodes| && Linked(s, c)
    ensures Linked(s.(nodes := s.nodes + [node]), c)
  {
    hide InHands, Kept;
  }

  lemma LinkUnregister(s: Sys, t: nat, n: nat, id: nat, c: nat)
    requires Enabled(s, Unregister(t, n, id)) && Shape(s) && c < |s.nodes| && Linked(s, c)
    ensures Linked(Step(s, Unregister(t, n, id)), c)
  {
    var s', st := Step(s, Unregister(t, n, id)), s.nodes[n].st;
    assert NodeOk(s, n);
    ValuesSplit(st.callbacks, id, Child(c));
    SplitMembers(st.callbacks, id);
    HeldIsEntry(Only(st.callbacks, id), Child(c));
    assert Values(Only(st.callbacks, id))[Child(c)] == 0;
    WithCounts(s, n, Unregistered(st, id), t, s.threads[t], Child(c));
    KeptIs(s.nodes[n], Child(c));
    KeptIs(s'.nodes[n], Child(c));
    hide InHands, Kept, ToRun, Values, KeptBy, Without, Only, NodeOk, Shape;
    LinkStays(s, s', c);
  }

  lemma LinkFuture(s: Sys, t: nat, n: nat, c: nat)
    requires Enabled(s, Future(t, n)) && c < |s.nodes| && Linked(s, c)
    ensures Linked(Step(s, Future(t, n)), c)
  {
    var s' := Step(s, Future(t, n));
    KeptIs(s.nodes[n], Child(c));
    KeptIs(s'.nodes[n], Child(c));
    assert s'.threads == s.threads;
    hide InHands, Kept, Values;
    LinkStays(s, s', c);
  }

  lemma LinkDrop(s: Sys, n: nat, c: nat)
    requires Enabled(s, Drop(n)) && c < |s.nodes| && Linked(s, c)
    ensures Linked(Step(s, Drop(n)), c)
  {
    hide InHands, Kept, Values;
    LinkStays(s, Step(s, Drop(n)), c);
  }

  lemma LinkExec(s: Sys, t: nat, c: nat)
    requires Enabled(s, Exec(t)) && c < |s.nodes| && Linked(s, c)
    ensures Linked(Step(s, Exec(t)), c)
  {
    var w, rest := s.threads[t][0], s.threads[t][1..];
    assert s.threads[t] == [w] + rest;
    ToRunOne(w, rest, Child(c));
    if w.Run? && w.cb.Child? && Alive(s, w.cb.c) {
      LinkCancel(s, w.cb.c, t, rest, c);
      hide CancelNode, InHands, ToRun, Kept, Alive;
      LinkSame(CancelNode(s, w.cb.c, t, rest), Step(s, Exec(t)), c);
    } else {
      var ws := if w.Run? && w.cb.User? then [Inside(w.cb.u)] + rest else rest;
      if w.Run? && w.cb.User? { ToRunOne(Inside(w.cb.u), rest, Child(c)); }
      InHandsUpdate(s.threads, t, ws, Child(c));
      hide InHands, ToRun, Kept, CancelNode;
      LinkStays(s, Step(s, Exec(t)), c);
    }
  }

  lemma LinkSame(s: Sys, s': Sys, c: nat)
    requires c < |s.nodes| && Linked(s, c) && s'.nodes == s.nodes && s'.threads == s.threads
    ensures Linked(s', c)
  {}

  lemma LinkKeeps(s: Sys, a: Act, c: nat)
    requires Shape(s) && Enabled(s, a) && c < |Step(s, a).nodes| && (c < |s.nodes| ==> Linked(s, c))
    ensures Linked(Step(s, a), c)
  {
    match a {
      case NewSource =>
        if c < |s.nodes| { hide Shape; LinkGrown(s, Node(FRESH, true, None), c); }
      case Cancel(t, n) => LinkCancel(s, n, t, s.threads[t], c);
      case Register(t, n) =>
        LinkRegister(s, n, t, User(|s.homes|), c);
        hide RegisterAt, Shape;
        LinkSame(RegisterAt(s, n, t, User(|s.homes|)), Step(s, a), c);
      case Unregister(t, n, id) => LinkUnregister(s, t, n, id, c);
      case Spawn(t, n) =>
        if c < |s.nodes| {
          var child := Node(FRESH, true, Some(n));
          hide Shape;
          LinkGrown(s, child, c);
          LinkRegister(s.(nodes := s.nodes + [child]), n, t, Child(|s.nodes|), c);
        } else { LinkSpawned(s, n, t); }
      case Future(t, n) => LinkFuture(s, t, n, c);
      case Exec(t) => LinkExec(s, t, c);
      case Drop(n) => LinkDrop(s, n, c);
    }
  }

  // -------------------------------------------------------------------------
  // Whole runs
  // -------------------------------------------------------------------------

  lemma StepKeeps(s: Sys, a: Act)
    requires Inv(s) && Enabled(s, a)
    ensures Inv(Step(s, a))
  {
    var s' := Step(s, a);
    ShapeKeeps(s, a);
    hide Shape, Step, Enabled;
    forall cb ensures Balanced(s', cb) {
      assert Balanced(s, cb);
      BalanceKeeps(s, a, cb);
    }
    forall c | 0 <= c < |s'.nodes| ensures Linked(s', c) {
      LinkKeeps(s, a, c);
    }
  }

  ghost predicate Legal(s: Sys, acts: seq<Act>)
    decreases |acts|
  {
    acts == [] || (Enabled(s, acts[0]) && Legal(Step(s, acts[0]), acts[1..]))
  }

  ghost function RunAll(s: Sys, acts: seq<Act>): Sys
    requires Legal(s, acts)
    decreases |acts|
  {
    if acts == [] then s else RunAll(Step(s, acts[0]), acts[1..])
  }

  lemma {:induction false} RunKeeps(s: Sys, acts: seq<Act>)
    requires Inv(s) && Legal(s, acts)
    ensures Inv(RunAll(s, acts))
    decreases |acts|
  {
    if acts != [] {
      StepKeeps(s, acts[0]);
      hide Inv, Step;
      RunKeeps(Step(s, acts[0]), acts[1..]);
    }
  }

  /** All calls have returned. */
  ghost predicate Quiet(s: Sys) {
    forall t :: 0 <= t < |s.threads| ==> s.threads[t] == []
  }

  /** `path` leads from a node down to a descendant. */
  ghost predicate Path(s: Sys, path: seq<nat>) {
    && path != [] && (forall i :: 0 <= i < |path| ==> Alive(s, path[i]))
    && forall i :: 0 < i < |path| ==> s.nodes[path[i]].parent == Some(path[i - 1])
  }

  lemma {:induction false} PathCancelled(s: Sys, path: seq<nat>)
    requires Inv(s) && Quiet(s) && Path(s, path) && s.nodes[path[0]].st.cancelled
    ensures forall i :: 0 <= i < |path| ==> s.nodes[path[i]].st.cancelled
  {
    if |path| > 1 {
      var c := path[1];
      InHandsNone(s.threads, Child(c));
      assert Linked(s, c) && s.nodes[c].parent == Some(path[0]);
      hide Inv;
      forall i | 0 < i < |path[1..]| ensures s.nodes[path[1..][i]].parent == Some(path[1..][i - 1]) {
        assert path[1..][i] == path[i + 1] && path[1..][i - 1] == path[i];
      }
      PathCancelled(s, path[1..]);
      assert forall i :: 0 < i < |path| ==> path[i] == path[1..][i - 1];
    }
  }

  /** Cancellation reaches everybody: over every interleaving, when all calls have
      returned, every descendant of a cancelled node that is linked to it through live
      nodes is cancelled. */
  lemma CancellationReachesDescendants(threads: nat, acts: seq<Act>, path: seq<nat>)
    requires Legal(Start(threads), acts)
    requires var s := RunAll(Start(threads), acts);
      Quiet(s) && Path(s, path) && s.nodes[path[0]].st.cancelled
    ensures var s := RunAll(Start(threads), acts);
      forall i :: 0 <= i < |path| ==> s.nodes[path[i]].st.cancelled
  {
    StartInv(threads);
    RunKeeps(Start(threads), acts);
    hide Inv, RunAll, Start;
    PathCancelled(RunAll(Start(threads), acts), path);
  }

  // -------------------------------------------------------------------------
  // Callbacks run once
  // -------------------------------------------------------------------------

  /** No callback runs twice, in any reachable state. */
  lemma AtMostOnce(threads: nat, acts: seq<Act>, cb: Callback)
    requires Legal(Start(threads), acts)
    ensures RunAll(Start(threads), acts).ran[cb] <= 1
  {
    StartInv(threads);
    RunKeeps(Start(threads), acts);
    assert Balanced(RunAll(Start(threads), acts), cb);
  }

  /** A node that is cancelled keeps no callback any more. */
  lemma NobodyKeeps(s: Sys, u: nat)
    requires Shape(s) && u < |s.homes| && s.nodes[s.homes[u]].st.cancelled
    ensures KeptBy(s.nodes, User(u)) == 0
  {
    forall n | 0 <= n < |s.nodes| ensures Kept(s.nodes[n], User(u)) == 0 {
      assert NodeOk(s, n);
      HeldIsEntry(s.nodes[n].st.callbacks, User(u));
      hide Values;
    }
    KeptByNone(s.nodes, User(u));
  }

  lemma StaysCancelled(s: Sys, a: Act, n: nat)
    requires Enabled(s, a) && n < |s.nodes| && s.nodes[n].st.cancelled
    ensures n < |Step(s, a).nodes| && Step(s, a).nodes[n].st.cancelled && s.homes <= Step(s, a).homes
  {
    hide Values, Without, Only, Runs;
  }

  /** From the cancelling lock section on nothing can take a callback of the node away. */
  lemma StepTakesNone(s: Sys, a: Act, u: nat)
    requires Shape(s) && Enabled(s, a) && u < |s.homes| && s.nodes[s.homes[u]].st.cancelled
    ensures Step(s, a).gone[User(u)] == s.gone[User(u)]
  {
    NobodyKeeps(s, u);
    hide Shape, Kept, KeptBy, Without, Only, Values;
    if a.Unregister? || a.Drop? {
      var entries := s.nodes[a.n].st.callbacks;
      KeptByIsSome(s.nodes, a.n, User(u));
      KeptIs(s.nodes[a.n], User(u));
      if a.Unregister? { ValuesSplit(entries, a.id, User(u)); }
    }
  }

  lemma {:induction false} RunTakesNone(s: Sys, acts: seq<Act>, u: nat)
    requires Inv(s) && Legal(s, acts) && u < |s.homes| && s.nodes[s.homes[u]].st.cancelled
    ensures var s' := RunAll(s, acts);
      && Inv(s') && u < |s'.homes| && s'.homes[u] == s.homes[u] && s'.nodes[s.homes[u]].st.cancelled
      && s'.gone[User(u)] == s.gone[User(u)]
    decreases |acts|
  {
    if acts != [] {
      StepKeeps(s, acts[0]);
      StepTakesNone(s, acts[0], u);
      StaysCancelled(s, acts[0], s.homes[u]);
      hide Balanced, Linked, NodeOk, Step;
      RunTakesNone(Step(s, acts[0]), acts[1..], u);
    }
  }

  /** A user callback whose node is cancelled runs exactly once by the time all calls
      have returned, unless it had been unregistered before the cancelling lock
      section; then it never runs. */
  lemma ExactlyOnce(s: Sys, acts: seq<Act>, u: nat)
    requires Inv(s) && Legal(s, acts) && Quiet(RunAll(s, acts))
    requires u < |s.homes| && s.nodes[s.homes[u]].st.cancelled
    ensures RunAll(s, acts).ran[User(u)] == if s.gone[User(u)] > 0 then 0 else 1
  {
    RunTakesNone(s, acts, u);
    var s' := RunAll(s, acts);
    NobodyKeeps(s', u);
    InHandsNone(s'.threads, User(u));
    assert Balanced(s', User(u)) && Balanced(s, User(u));
    hide Shape, RunAll, KeptBy, InHands;
  }

  // -------------------------------------------------------------------------
  // What a registration comes to
  // -------------------------------------------------------------------------

  /** Node `n` keeps user callback `u` under `id`. */
  ghost predicate Held(s: Sys, n: nat, id: nat, u: nat) {
    n < |s.nodes| && Entry(id, User(u)) in s.nodes[n].st.callbacks
  }

  /** Such a callback has not run, and can still run only once. */
  lemma HeldHasNotRun(s: Sys, n: nat, id: nat, u: nat)
    requires Inv(s) && Held(s, n, id, u)
    ensures s.ran[User(u)] == 0 && s.gone[User(u)] == 0
    ensures u < |s.homes| && s.homes[u] == n && !s.nodes[n].st.cancelled && s.nodes[n].alive
  {
    var cb := User(u);
    assert NodeOk(s, n) && EntryOk(s, n, Entry(id, cb)) && Balanced(s, cb);
    HeldIsEntry(s.nodes[n].st.callbacks, cb);
    KeptIs(s.nodes[n], cb);
    KeptByIsSome(s.nodes, n, cb);
    hide Values, Kept, KeptBy, InHands;
  }

  /** The registration is dropped, or the node itself goes. */
  predicate Removes(a: Act, n: nat, id: nat) {
    (a.Unregister? && a.n == n && a.id == id) || (a.Drop? && a.n == n)
  }

  /** One step of anybody: a removal takes the callback out for good; otherwise the node
      goes on keeping it, unless this is the lock section that cancels the node. */
  lemma HeldStep(s: Sys, a: Act, n: nat, id: nat, u: nat)
    requires Inv(s) && Enabled(s, a) && Held(s, n, id, u)
    ensures if Removes(a, n, id) then Step(s, a).gone[User(u)] > 0
      else
        || Held(Step(s, a), n, id, u)
        || (n < |Step(s, a).nodes| && Step(s, a).nodes[n].st.cancelled && Step(s, a).gone[User(u)] == 0)
  {
    HeldHasNotRun(s, n, id, u);
    hide Inv, Runs, Without, Only, Values;
    if a.Unregister? {
      SplitMembers(s.nodes[a.n].st.callbacks, a.id);
      HeldIsEntry(Only(s.nodes[a.n].st.callbacks, a.id), User(u));
    }
    if a.Drop? { HeldIsEntry(s.nodes[a.n].st.callbacks, User(u)); }
    if !Removes(a, n, id) && (a.Unregister? || a.Drop?) {
      assert Held(Step(s, a), n, id, u);
    }
  }

  lemma {:induction false} GoneStays(s: Sys, acts: seq<Act>, cb: Callback)
    requires Legal(s, acts)
    ensures RunAll(s, acts).gone[cb] >= s.gone[cb]
    decreases |acts|
  {
    if acts != [] {
      GoneGrows(s, acts[0], cb);
      hide Step;
      GoneStays(Step(s, acts[0]), acts[1..], cb);
    }
  }

  lemma GoneGrows(s: Sys, a: Act, cb: Callback)
    requires Enabled(s, a)
    ensures Step(s, a).gone[cb] >= s.gone[cb]
  {
    hide Values, Only, Without, Runs;
  }

  /** Before the lock section that cancels node `n` the run drops registration `id` of it,
      or the node goes. */
  ghost predicate Removed(s: Sys, acts: seq<Act>, n: nat, id: nat)
    requires Legal(s, acts) && n < |s.nodes|
    decreases |acts|
  {
    && acts != [] && !s.nodes[n].st.cancelled
    && (Removes(acts[0], n, id)
        || (n < |Step(s, acts[0]).nodes| && Removed(Step(s, acts[0]), acts[1..], n, id)))
  }

  lemma RemovedIs(s: Sys, acts: seq<Act>, n: nat, id: nat)
    requires Legal(s, acts) && n < |s.nodes|
    ensures acts == [] || s.nodes[n].st.cancelled ==> !Removed(s, acts, n, id)
    ensures acts != [] && !s.nodes[n].st.cancelled ==>
      && n < |Step(s, acts[0]).nodes|
      && Removed(s, acts, n, id) == (Removes(acts[0], n, id) || Removed(Step(s, acts[0]), acts[1..], n, id))
  {
    if acts != [] { NodesGrow(s, acts[0]); }
    hide Step, Removes;
  }

  /** How often user callback `u` of node `n` has run: not at all when its registration
      was removed or the node is not cancelled, or else once when all calls have returned. */
  ghost predicate RanAsTold(s: Sys, n: nat, u: nat, removed: bool) {
    && n < |s.nodes|
    && if removed || !s.nodes[n].st.cancelled then s.ran[User(u)] == 0 else Quiet(s) ==> s.ran[User(u)] == 1
  }

  lemma {:induction false} HeldDecides(s: Sys, acts: seq<Act>, n: nat, id: nat, u: nat)
    requires Inv(s) && Legal(s, acts) && Held(s, n, id, u)
    ensures RanAsTold(RunAll(s, acts), n, u, Removed(s, acts, n, id))
    decreases |acts|
  {
    HeldHasNotRun(s, n, id, u);
    RemovedIs(s, acts, n, id);
    if acts != [] {
      var s1 := Step(s, acts[0]);
      HeldStep(s, acts[0], n, id, u);
      StepKeeps(s, acts[0]);
      NodesGrow(s, acts[0]);
      hide Step, Enabled, Removes, Removed, Inv, Held, RanAsTold;
      if Removes(acts[0], n, id) {
        GoneForGood(s1, acts[1..], n, u);
      } else if Held(s1, n, id, u) {
        HeldDecides(s1, acts[1..], n, id, u);
      } else {
        RemovedIs(s1, acts[1..], n, id);
        FiredRuns(s1, acts[1..], n, u);
      }
    }
  }

  lemma GoneForGood(s: Sys, acts: seq<Act>, n: nat, u: nat)
    requires Inv(s) && Legal(s, acts) && n < |s.nodes| && s.gone[User(u)] > 0
    ensures RanAsTold(RunAll(s, acts), n, u, true)
  {
    GoneStays(s, acts, User(u));
    NodesStay(s, acts);
    RunKeeps(s, acts);
    hide Inv;
    GoneHasNotRun(RunAll(s, acts), u);
  }

  lemma GoneHasNotRun(s: Sys, u: nat)
    requires Inv(s) && s.gone[User(u)] > 0
    ensures s.ran[User(u)] == 0
  {
    assert Balanced(s, User(u));
    hide KeptBy, InHands;
  }

  lemma {:induction false} NodesStay(s: Sys, acts: seq<Act>)
    requires Legal(s, acts)
    ensures |s.nodes| <= |RunAll(s, acts).nodes| && s.homes <= RunAll(s, acts).homes
    decreases |acts|
  {
    if acts != [] {
      NodesGrow(s, acts[0]);
      hide Step;
      NodesStay(Step(s, acts[0]), acts[1..]);
    }
  }

  lemma NodesGrow(s: Sys, a: Act)
    requires Enabled(s, a)
    ensures |s.nodes| <= |Step(s, a).nodes| && s.homes <= Step(s, a).homes
  {
    hide Values, Only, Without, Runs;
  }

  /** From the lock section on that took it out a callback runs once. */
  lemma FiredRuns(s: Sys, acts: seq<Act>, n: nat, u: nat)
    requires Inv(s) && Legal(s, acts) && u < |s.homes| && s.homes[u] == n < |s.nodes| && s.nodes[n].st.cancelled
    requires s.gone[User(u)] == 0
    ensures RanAsTold(RunAll(s, acts), n, u, false) && RunAll(s, acts).nodes[n].st.cancelled
  {
    RunTakesNone(s, acts, u);
    NodesStay(s, acts);
    hide Inv, Quiet;
    if Quiet(RunAll(s, acts)) { ExactlyOnce(s, acts, u); }
  }

  /** What a registration comes to, read off the acts of the run that follows it: dropped
      before the node is cancelled, or with a node that goes before that, its callback
      never runs; nor does it without a cancellation; in every other run it has run
      exactly once by the time all calls have returned. On a node that is cancelled
      already it is run all the same. */
  lemma RegistrationDecides(s: Sys, t: nat, n: nat, acts: seq<Act>)
    requires Inv(s) && Enabled(s, Register(t, n)) && Legal(Step(s, Register(t, n)), acts)
    ensures var s1 := Step(s, Register(t, n));
      var s', id, u := RunAll(s1, acts), s.nodes[n].st.nextId, |s.homes|;
      && n < |s1.nodes| && RanAsTold(s', n, u, Removed(s1, acts, n, id))
      && (s.nodes[n].st.cancelled ==> s'.nodes[n].st.cancelled && !Removed(s1, acts, n, id))
      && (!s.nodes[n].st.cancelled ==> (n, id) in s1.handles)
  {
    var s1 := Step(s, Register(t, n));
    var id, u := s.nodes[n].st.nextId, |s.homes|;
    StepKeeps(s, Register(t, n));
    assert Balanced(s, User(u));
    if s.nodes[n].st.cancelled {
      RemovedIs(s1, acts, n, id);
      hide Values, KeptBy, InHands, Inv, Quiet, Removed;
      FiredRuns(s1, acts, n, u);
    } else {
      assert Held(s1, n, id, u);
      hide Values, KeptBy, InHands, Inv, Held, Quiet, Removed;
      HeldDecides(s1, acts, n, id, u);
    }
  }

  // -------------------------------------------------------------------------
  // Nobody else is cancelled
  // -------------------------------------------------------------------------

  /** The nodes that the acts of a run cancel by name. */
  function Targets(acts: seq<Act>): set<nat> {
    if acts == [] then {} else (if acts[0].Cancel? then {acts[0].n} else {}) + Targets(acts[1..])
  }

  lemma TargetsSplit(acts: seq<Act>)
    requires acts != []
    ensures Targets([acts[0]]) == if acts[0].Cancel? then {acts[0].n} else {}
    ensures Targets(acts) == Targets([acts[0]]) + Targets(acts[1..])
  {
    assert [acts[0]][1..] == [];
  }

  /** A target, or a descendant of one. */
  ghost predicate Asked(nodes: seq<Node>, c: nat, targets: set<nat>)
    requires c < |nodes|
    decreases c
  {
    c in targets || (nodes[c].parent.Some? && nodes[c].parent.value < c && Asked(nodes, nodes[c].parent.value, targets))
  }

  ghost predicate SameParents(nodes: seq<Node>, nodes': seq<Node>) {
    |nodes| <= |nodes'| && forall c :: 0 <= c < |nodes| ==> nodes'[c].parent == nodes[c].parent
  }

  lemma {:induction false} AskedStays(nodes: seq<Node>, nodes': seq<Node>, c: nat, targets: set<nat>, more: set<nat>)
    requires SameParents(nodes, nodes') && c < |nodes| && Asked(nodes, c, targets)
    ensures Asked(nodes', c, targets + more)
    decreases c
  {
    if c !in targets { AskedStays(nodes, nodes', nodes[c].parent.value, targets, more); }
  }

  /** Node `c` is cancelled, or a call that cancels it is on its way. */
  ghost predicate Reached(s: Sys, c: nat) {
    (c < |s.nodes| && s.nodes[c].st.cancelled) || InHands(s.threads, Child(c)) > 0
  }

  ghost predicate Traced(s: Sys, targets: set<nat>) {
    forall c: nat :: Reached(s, c) ==> c < |s.nodes| && Asked(s.nodes, c, targets)
  }

  lemma ParentsStay(s: Sys, a: Act)
    requires Enabled(s, a)
    ensures SameParents(s.nodes, Step(s, a).nodes)
  {
    hide Values, Only, Without, Runs;
  }

  /** A cancellation reaches nobody but the node and its children. */
  lemma CancelReaches(s: Sys, n: nat, t: nat, ws: seq<Work>, c: nat)
    requires Inv(s) && n < |s.nodes| && t < |s.threads| && ToRun(ws, Child(c)) <= ToRun(s.threads[t], Child(c))
    requires Reached(CancelNode(s, n, t, ws), c) && !Reached(s, c) && c != n
    ensures c < |s.nodes| && s.nodes[c].parent == Some(n) && n < c
  {
    var entries := s.nodes[n].st.callbacks;
    CancelCounts(s, n, t, ws, Child(c));
    HeldIsEntry(entries, Child(c));
    hide KeptBy, InHands, Values, ToRun;
    var e :| e in entries && e.cb == Child(c);
    assert NodeOk(s, n) && EntryOk(s, n, e);
    assert Linked(s, c);
  }

  lemma TraceCancel(s: Sys, n: nat, t: nat, ws: seq<Work>, c: nat, targets: set<nat>)
    requires Inv(s) && n < |s.nodes| && t < |s.threads| && ToRun(ws, Child(c)) <= ToRun(s.threads[t], Child(c))
    requires Asked(s.nodes, n, targets) && (Reached(s, c) ==> c < |s.nodes| && Asked(s.nodes, c, targets))
    requires Reached(CancelNode(s, n, t, ws), c)
    ensures c < |s.nodes| && Asked(s.nodes, c, targets)
  {
    hide Reached, Inv;
    if !Reached(s, c) && c != n { CancelReaches(s, n, t, ws, c); }
  }

  lemma TraceRegister(s: Sys, n: nat, t: nat, cb: Callback, c: nat)
    requires n < |s.nodes| && t < |s.threads| && Reached(RegisterAt(s, n, t, cb), c)
    ensures Reached(s, c) || (cb == Child(c) && s.nodes[n].st.cancelled)
  {
    RegisterCounts(s, n, t, cb, Child(c));
    hide KeptBy, InHands;
  }

  lemma TraceExec(s: Sys, t: nat, c: nat, targets: set<nat>)
    requires Inv(s) && Enabled(s, Exec(t)) && Traced(s, targets) && Reached(Step(s, Exec(t)), c)
    ensures c < |s.nodes| && Asked(s.nodes, c, targets)
  {
    var w, rest := s.threads[t][0], s.threads[t][1..];
    assert s.threads[t] == [w] + rest;
    ToRunOne(w, rest, Child(c));
    if w.Run? && w.cb.Child? && Alive(s, w.cb.c) {
      ToRunOne(w, rest, w.cb);
      InHandsUpdate(s.threads, t, [], w.cb);
      assert Reached(s, w.cb.c);
      hide InHands, ToRun, Inv, Asked, CancelNode;
      assert Reached(CancelNode(s, w.cb.c, t, rest), c);
      TraceCancel(s, w.cb.c, t, rest, c, targets);
    } else {
      var ws := if w.Run? && w.cb.User? then [Inside(w.cb.u)] + rest else rest;
      if w.Run? && w.cb.User? { ToRunOne(Inside(w.cb.u), rest, Child(c)); }
      InHandsUpdate(s.threads, t, ws, Child(c));
      hide InHands, ToRun, Inv, Asked, CancelNode;
      assert Reached(s, c);
    }
  }

  lemma TraceStep(s: Sys, a: Act, targets: set<nat>)
    requires Inv(s) && Enabled(s, a) && Traced(s, targets)
    ensures Traced(Step(s, a), targets + Targets([a]))
  {
    var s', more := Step(s, a), targets + Targets([a]);
    ParentsStay(s, a);
    forall c: nat | Reached(s', c) ensures c < |s'.nodes| && Asked(s'.nodes, c, more) {
      TraceNode(s, a, targets, c);
    }
  }

  lemma TraceNode(s: Sys, a: Act, targets: set<nat>, c: nat)
    requires Inv(s) && Enabled(s, a) && Traced(s, targets) && Reached(Step(s, a), c)
    ensures c < |Step(s, a).nodes| && Asked(Step(s, a).nodes, c, targets + Targets([a]))
  {
    var s', more := Step(s, a), targets + Targets([a]);
    TargetsSplit([a]);
    ParentsStay(s, a);
    if c < |s.nodes| && Asked(s.nodes, c, targets) {
      hide Step;
      AskedStays(s.nodes, s'.nodes, c, targets, Targets([a]));
    } else {
      assert !Reached(s, c);
      match a {
        case Cancel(t, n) =>
          assert Asked(s.nodes, n, more) && more + {} == more;
          hide Asked, Inv, InHands, Reached;
          TraceCancel(s, n, t, s.threads[t], c, more);
          AskedStays(s.nodes, s'.nodes, c, more, {});
        case Register(t, n) =>
          hide Asked, Inv, InHands, Values, ToRun;
          TraceRegister(s, n, t, User(|s.homes|), c);
        case Exec(t) =>
          hide Asked, Inv, InHands, Step, Reached;
          TraceExec(s, t, c, targets);
        case Spawn(t, n) =>
          hide Asked, Inv, InHands, Step, Reached;
          TraceSpawn(s, t, n, targets, c);
        case _ => TraceRest(s, a, c);
      }
    }
  }

  lemma TraceSpawn(s: Sys, t: nat, n: nat, targets: set<nat>, c: nat)
    requires Enabled(s, Spawn(t, n)) && Traced(s, targets) && Reached(Step(s, Spawn(t, n)), c) && !Reached(s, c)
    ensures var s' := Step(s, Spawn(t, n)); c < |s'.nodes| && Asked(s'.nodes, c, targets + {})
  {
    var child, s' := Node(FRESH, true, Some(n)), Step(s, Spawn(t, n));
    var grown := s.(nodes := s.nodes + [child]);
    hide InHands, Asked;
    TraceRegister(grown, n, t, Child(|s.nodes|), c);
    assert !Reached(grown, c);
    assert Reached(s, n);
    AskedStays(s.nodes, s'.nodes, n, targets, {});
    assert c == |s.nodes| && s'.nodes[c].parent == Some(n);
    ChildAsked(s'.nodes, c, targets + {});
  }

  lemma ChildAsked(nodes: seq<Node>, c: nat, targets: set<nat>)
    requires c < |nodes| && nodes[c].parent.Some? && nodes[c].parent.value < c
    requires Asked(nodes, nodes[c].parent.value, targets)
    ensures Asked(nodes, c, targets)
  {}

  lemma TraceRest(s: Sys, a: Act, c: nat)
    requires Enabled(s, a) && (a.NewSource? || a.Unregister? || a.Future? || a.Drop?)
    requires Reached(Step(s, a), c)
    ensures Reached(s, c)
  {
    hide Values, Without, Only, InHands;
    if a.Unregister? || a.Future? { assert s.threads[a.t := s.threads[a.t]] == s.threads; }
  }

  lemma {:induction false} RunTraced(s: Sys, acts: seq<Act>, targets: set<nat>)
    requires Inv(s) && Legal(s, acts) && Traced(s, targets)
    ensures Traced(RunAll(s, acts), targets + Targets(acts))
    decreases |acts|
  {
    if acts == [] {
      assert targets + Targets(acts) == targets;
    } else {
      var more := targets + Targets([acts[0]]);
      StepKeeps(s, acts[0]);
      TraceStep(s, acts[0], targets);
      hide Inv, Step, Traced;
      RunTraced(Step(s, acts[0]), acts[1..], more);
      TargetsSplit(acts);
      assert targets + Targets(acts) == more + Targets(acts[1..]);
    }
  }

  /** A cancellation never goes up or sideways: over every interleaving, a node that is
      cancelled was named by a call of `cancel`, or one of its ancestors was. */
  lemma OnlyDescendantsAreCancelled(threads: nat, acts: seq<Act>, c: nat)
    requires Legal(Start(threads), acts)
    ensures var s := RunAll(Start(threads), acts);
      c < |s.nodes| && s.nodes[c].st.cancelled ==> Asked(s.nodes, c, Targets(acts))
  {
    var s0 := Start(threads);
    StartInv(threads);
    forall c: nat ensures !Reached(s0, c) { InHandsNone(s0.threads, Child(c)); }
    RunTraced(s0, acts, {});
    assert {} + Targets(acts) == Targets(acts);
    hide InHands, Asked;
    var s := RunAll(s0, acts);
    assert c < |s.nodes| && s.nodes[c].st.cancelled ==> Reached(s, c);
  }

  lemma {:induction false} RunStaysCancelled(s: Sys, acts: seq<Act>, n: nat)
    requires Legal(s, acts) && n < |s.nodes| && s.nodes[n].st.cancelled
    ensures n < |RunAll(s, acts).nodes| && RunAll(s, acts).nodes[n].st.cancelled
    decreases |acts|
  {
    if acts != [] {
      StaysCancelled(s, acts[0], n);
      hide Step;
      RunStaysCancelled(Step(s, acts[0]), acts[1..], n);
    }
  }

  /** A node that was named is cancelled from then on. */
  lemma {:induction false} TargetsAreCancelled(s: Sys, acts: seq<Act>, n: nat)
    requires Legal(s, acts) && n in Targets(acts)
    ensures n < |RunAll(s, acts).nodes| && RunAll(s, acts).nodes[n].st.cancelled
    decreases |acts|
  {
    var s1 := Step(s, acts[0]);
    if acts[0].Cancel? && acts[0].n == n {
      assert n < |s1.nodes| && s1.nodes[n].st.cancelled;
      hide Step;
      RunStaysCancelled(s1, acts[1..], n);
    } else {
      hide Step;
      TargetsAreCancelled(s1, acts[1..], n);
    }
  }

  /** On a path from a root an asked node has a target above it, or is one. */
  lemma {:induction false} AskedOnPath(s: Sys, path: seq<nat>, targets: set<nat>)
    requires Path(s, path) && s.nodes[path[0]].parent == None && Asked(s.nodes, path[|path| - 1], targets)
    ensures exists i :: 0 <= i < |path| && path[i] in targets
    decreases |path|
  {
    var c := path[|path| - 1];
    if c !in targets {
      assert |path| > 1 && s.nodes[c].parent == Some(path[|path| - 2]);
      var up := path[..|path| - 1];
      AskedOnPath(s, up, targets);
      var i :| 0 <= i < |up| && up[i] in targets;
      assert path[i] in targets;
    }
  }

  lemma {:induction false} SuffixPath(s: Sys, path: seq<nat>, i: nat)
    requires Path(s, path) && i < |path|
    ensures Path(s, path[i..])
  {
    forall j | 0 < j < |path[i..]| ensures s.nodes[path[i..][j]].parent == Some(path[i..][j - 1]) {
      assert path[i..][j] == path[i + j] && path[i..][j - 1] == path[i + j - 1];
    }
  }

  /** Who is cancelled, exactly: over every interleaving, when all calls have returned, a
      live node whose ancestors are live is cancelled if and only if `cancel` was called on
      it or on one of them. */
  lemma CancelledExactly(threads: nat, acts: seq<Act>, path: seq<nat>)
    requires Legal(Start(threads), acts)
    requires var s := RunAll(Start(threads), acts);
      Quiet(s) && Path(s, path) && s.nodes[path[0]].parent == None
    ensures var s := RunAll(Start(threads), acts);
      s.nodes[path[|path| - 1]].st.cancelled <==> exists i :: 0 <= i < |path| && path[i] in Targets(acts)
  {
    var s, c := RunAll(Start(threads), acts), path[|path| - 1];
    if s.nodes[c].st.cancelled {
      OnlyDescendantsAreCancelled(threads, acts, c);
      hide RunAll, Start, Asked;
      AskedOnPath(s, path, Targets(acts));
    }
    if exists i :: 0 <= i < |path| && path[i] in Targets(acts) {
      var i :| 0 <= i < |path| && path[i] in Targets(acts);
      TargetsAreCancelled(Start(threads), acts, path[i]);
      SuffixPath(s, path, i);
      hide RunAll, Start;
      CancellationReachesDescendants(threads, acts, path[i..]);
      assert path[i..][|path| - 1 - i] == c;
    }
  }

  // -------------------------------------------------------------------------
  // Futures
  // -------------------------------------------------------------------------

  /** Whether the sender of a future is still kept; the future resolves when it is not. */
  predicate Unresolved(s: Sys, f: nat)
    requires f < |s.futures| && s.futures[f] < |s.nodes|
  {
    f in s.nodes[s.futures[f]].st.senders
  }

  /** A future is unresolved exactly as long as its node is live and not cancelled, in
      every reachable state. */
  lemma FuturesFollow(threads: nat, acts: seq<Act>, f: nat)
    requires Legal(Start(threads), acts)
    ensures var s := RunAll(Start(threads), acts);
      f < |s.futures| ==>
        && s.futures[f] < |s.nodes|
        && (Unresolved(s, f) <==> s.nodes[s.futures[f]].alive && !s.nodes[s.futures[f]].st.cancelled)
  {
    StartInv(threads);
    RunKeeps(Start(threads), acts);
    var s := RunAll(Start(threads), acts);
    if f < |s.futures| {
      assert Pending(s, f) && NodeOk(s, s.futures[f]);
    }
  }

  /** So a future also resolves, with the answer of a cancellation, when the last handle
      of its node goes although nobody cancelled: every pending future of the node does. */
  lemma DropResolves(s: Sys, f: nat)
    requires Inv(s) && f < |s.futures| && s.futures[f] < |s.nodes| && Unresolved(s, f)
    ensures var n := s.futures[f];
      && Enabled(s, Drop(n)) && !Unresolved(Step(s, Drop(n)), f) && !Step(s, Drop(n)).nodes[n].st.cancelled
  {
    assert NodeOk(s, s.futures[f]);
  }

  /** What a future made now tells in every continuation: nothing as long as its node is
      live and not cancelled, and from then on that it is. */
  lemma FutureDecides(s: Sys, t: nat, n: nat, acts: seq<Act>)
    requires Inv(s) && Enabled(s, Future(t, n)) && Legal(Step(s, Future(t, n)), acts)
    ensures var s', f := RunAll(Step(s, Future(t, n)), acts), |s.futures|;
      && f < |s'.futures| && s'.futures[f] == n < |s'.nodes|
      && (Unresolved(s', f) <==> s'.nodes[n].alive && !s'.nodes[n].st.cancelled)
  {
    var s1 := Step(s, Future(t, n));
    StepKeeps(s, Future(t, n));
    RunKeeps(s1, acts);
    FuturesStay(s1, acts);
    var s' := RunAll(s1, acts);
    assert Pending(s', |s.futures|) && NodeOk(s', n);
  }

  lemma {:induction false} FuturesStay(s: Sys, acts: seq<Act>)
    requires Legal(s, acts)
    ensures s.futures <= RunAll(s, acts).futures
    decreases |acts|
  {
    if acts != [] {
      FuturesGrow(s, acts[0]);
      hide Step;
      FuturesStay(Step(s, acts[0]), acts[1..]);
    }
  }

  lemma FuturesGrow(s: Sys, a: Act)
    requires Enabled(s, a)
    ensures s.futures <= Step(s, a).futures
  {
    hide Values, Only, Without, Runs;
  }

  // -------------------------------------------------------------------------
  // New nodes
  // -------------------------------------------------------------------------

  /** The nodes are as they were, but for one more: live, not cancelled, below `parent`. */
  ghost predicate OneNodeMore(s: Sys, s': Sys, parent: Option<nat>) {
    && |s'.nodes| == |s.nodes| + 1 && Alive(s', |s.nodes|)
    && s'.nodes[|s.nodes|].st == FRESH && s'.nodes[|s.nodes|].parent == parent
    && forall m :: 0 <= m < |s.nodes| ==>
         && s'.nodes[m].alive == s.nodes[m].alive && s'.nodes[m].parent == s.nodes[m].parent
         && s'.nodes[m].st.cancelled == s.nodes[m].st.cancelled
  }

  /** A spawned child starts out on its own, and lives and dies under its parent: when all
      calls have returned and it is still live, it is cancelled if its parent is, be it that
      the parent was when it was spawned. */
  lemma SpawnDecides(s: Sys, t: nat, n: nat, acts: seq<Act>)
    requires Inv(s) && Enabled(s, Spawn(t, n)) && Legal(Step(s, Spawn(t, n)), acts)
    ensures OneNodeMore(s, Step(s, Spawn(t, n)), Some(n))
    ensures var s', c := RunAll(Step(s, Spawn(t, n)), acts), |s.nodes|;
      && c < |s'.nodes| && (s.nodes[n].st.cancelled ==> s'.nodes[n].st.cancelled)
      && (Quiet(s') && Alive(s', c) && s'.nodes[n].st.cancelled ==> s'.nodes[c].st.cancelled)
  {
    var s1, c := Step(s, Spawn(t, n)), |s.nodes|;
    StepKeeps(s, Spawn(t, n));
    RunKeeps(s1, acts);
    ParentStays(s1, acts, c);
    if s.nodes[n].st.cancelled { RunStaysCancelled(s1, acts, n); }
    var s' := RunAll(s1, acts);
    assert Linked(s', c);
    if Quiet(s') { InHandsNone(s'.threads, Child(c)); }
    hide InHands, Kept, RunAll;
  }

  lemma {:induction false} ParentStays(s: Sys, acts: seq<Act>, c: nat)
    requires Legal(s, acts) && c < |s.nodes|
    ensures c < |RunAll(s, acts).nodes| && RunAll(s, acts).nodes[c].parent == s.nodes[c].parent
    decreases |acts|
  {
    if acts != [] {
      ParentsStay(s, acts[0]);
      hide Step;
      ParentStays(Step(s, acts[0]), acts[1..], c);
    }
  }

  /** And a new source starts out alone. */
  lemma SourceStartsFresh(s: Sys)
    ensures Enabled(s, NewSource) && OneNodeMore(s, Step(s, NewSource), None)
  {}

  // -------------------------------------------------------------------------
  // The walk ends
  // -------------------------------------------------------------------------

  function Effort(ws: seq<Work>): nat {
    if ws == [] then 0 else (if ws[0].Run? then 2 else 1) + Effort(ws[1..])
  }

  function EffortOf(threads: seq<seq<Work>>): nat {
    if threads == [] then 0 else Effort(threads[0]) + EffortOf(threads[1..])
  }

  function Waiting(nodes: seq<Node>): nat {
    if nodes == [] then 0 else |nodes[0].st.callbacks| + Waiting(nodes[1..])
  }

  /** What can still happen without anybody calling in from outside. */
  function Measure(s: Sys): nat { EffortOf(s.threads) + 2 * Waiting(s.nodes) }

  lemma {:induction false} EffortUpdate(threads: seq<seq<Work>>, t: nat, ws: seq<Work>)
    requires t < |threads|
    ensures EffortOf(threads[t := ws]) + Effort(threads[t]) == EffortOf(threads) + Effort(ws)
  {
    hide Effort;
    if t > 0 {
      EffortUpdate(threads[1..], t - 1, ws);
      assert threads[t := ws][1..] == threads[1..][t - 1 := ws];
    } else {
      assert threads[t := ws][1..] == threads[1..];
    }
  }

  lemma {:induction false} WaitingUpdate(nodes: seq<Node>, n: nat, node: Node)
    requires n < |nodes|
    ensures Waiting(nodes[n := node]) + |nodes[n].st.callbacks| == Waiting(nodes) + |node.st.callbacks|
  {
    if n > 0 {
      WaitingUpdate(nodes[1..], n - 1, node);
      assert nodes[n := node][1..] == nodes[1..][n - 1 := node];
    } else {
      assert nodes[n := node][1..] == nodes[1..];
    }
  }

  lemma {:induction false} WaitingMore(nodes: seq<Node>, node: Node)
    ensures Waiting(nodes + [node]) == Waiting(nodes) + |node.st.callbacks|
  {
    if nodes == [] {
      assert Waiting([node]) == |node.st.callbacks| + Waiting([]);
      assert nodes + [node] == [node];
    } else {
      WaitingMore(nodes[1..], node);
      assert (nodes + [node])[1..] == nodes[1..] + [node];
    }
  }

  lemma {:induction false} EffortTaken(entries: seq<Entry>, ws: seq<Work>)
    ensures Effort(Runs(entries) + ws) == 2 * |entries| + Effort(ws)
  {
    if entries == [] {
      assert Runs(entries) + ws == ws;
    } else {
      EffortTaken(entries[1..], ws);
      assert (Runs(entries) + ws)[1..] == Runs(entries[1..]) + ws;
    }
  }

  lemma EffortOne(w: Work, ws: seq<Work>)
    ensures Effort([w] + ws) == (if w.Run? then 2 else 1) + Effort(ws)
  {
    assert ([w] + ws)[1..] == ws;
  }

  lemma {:induction false} WithoutIsShorter(entries: seq<Entry>, id: nat)
    ensures |Without(entries, id)| <= |entries|
  {
    if entries != [] { WithoutIsShorter(entries[1..], id); }
  }

  lemma CancelMeasure(s: Sys, n: nat, t: nat, ws: seq<Work>)
    requires n < |s.nodes| && t < |s.threads|
    ensures Measure(CancelNode(s, n, t, ws)) + Effort(s.threads[t]) == Measure(s) + Effort(ws)
  {
    var st := s.nodes[n].st;
    hide Effort, EffortOf, Waiting, Runs;
    EffortTaken(st.callbacks, ws);
    EffortUpdate(s.threads, t, ws);
    EffortUpdate(s.threads, t, Runs(st.callbacks) + ws);
    WaitingUpdate(s.nodes, n, s.nodes[n].(st := Cancelled(st)));
  }

  lemma RegisterMeasure(s: Sys, n: nat, t: nat, cb: Callback)
    requires n < |s.nodes| && t < |s.threads|
    ensures Measure(RegisterAt(s, n, t, cb)) == Measure(s) + 2
  {
    var st, ws := s.nodes[n].st, s.threads[t];
    hide Effort, EffortOf, Waiting;
    EffortOne(Run(cb), ws);
    assert [] + ws == ws;
    EffortUpdate(s.threads, t, (if st.cancelled then [Run(cb)] else []) + ws);
    WaitingUpdate(s.nodes, n, s.nodes[n].(st := Registered(st, cb)));
  }

  predicate AddsWork(a: Act) { a.Register? || a.Spawn? }

  lemma ExecMeasure(s: Sys, t: nat)
    requires Enabled(s, Exec(t))
    ensures Measure(Step(s, Exec(t))) < Measure(s)
  {
    var w, rest := s.threads[t][0], s.threads[t][1..];
    assert s.threads[t] == [w] + rest;
    EffortOne(w, rest);
    hide Effort, EffortOf, Waiting;
    EffortUpdate(s.threads, t, rest);
    if w.Run? && w.cb.User? {
      EffortOne(Inside(w.cb.u), rest);
      EffortUpdate(s.threads, t, [Inside(w.cb.u)] + rest);
    } else if w.Run? && Alive(s, w.cb.c) {
      CancelMeasure(s, w.cb.c, t, rest);
      hide CancelNode;
    }
  }

  lemma StepMeasure(s: Sys, a: Act)
    requires Enabled(s, a)
    ensures Measure(Step(s, a)) <= Measure(s) + (if AddsWork(a) then 2 else 0)
    ensures a.Exec? ==> Measure(Step(s, a)) < Measure(s)
  {
    hide Effort, EffortOf, Waiting, Values, Without;
    match a {
      case NewSource => WaitingMore(s.nodes, Node(FRESH, true, None));
      case Cancel(t, n) => CancelMeasure(s, n, t, s.threads[t]);
      case Register(t, n) => RegisterMeasure(s, n, t, User(|s.homes|));
      case Unregister(t, n, id) =>
        var st := s.nodes[n].st;
        WithoutIsShorter(st.callbacks, id);
        assert s.threads[t := s.threads[t]] == s.threads;
        WaitingUpdate(s.nodes, n, s.nodes[n].(st := Unregistered(st, id)));
      case Spawn(t, n) =>
        var child := Node(FRESH, true, Some(n));
        WaitingMore(s.nodes, child);
        RegisterMeasure(s.(nodes := s.nodes + [child]), n, t, Child(|s.nodes|));
      case Future(t, n) =>
        assert s.threads[t := s.threads[t]] == s.threads;
        WaitingUpdate(s.nodes, n, s.nodes[n].(st := Awaited(s.nodes[n].st, |s.futures|)));
      case Exec(t) => ExecMeasure(s, t);
      case Drop(n) => WaitingUpdate(s.nodes, n, Dead(s.nodes[n]));
    }
  }

  function Execs(acts: seq<Act>): nat {
    if acts == [] then 0 else One(acts[0].Exec?) + Execs(acts[1..])
  }

  function Added(acts: seq<Act>): nat {
    if acts == [] then 0 else One(AddsWork(acts[0])) + Added(acts[1..])
  }

  /** The walk over the tree ends: in every run the threads take no more steps than what
      was waiting at the start and what was registered since allow, two for each. */
  lemma {:induction false} WalkEnds(s: Sys, acts: seq<Act>)
    requires Legal(s, acts)
    ensures Execs(acts) + Measure(RunAll(s, acts)) <= Measure(s) + 2 * Added(acts)
    decreases |acts|
  {
    if acts != [] {
      StepMeasure(s, acts[0]);
      hide Step, Measure;
      WalkEnds(Step(s, acts[0]), acts[1..]);
    }
  }
}
