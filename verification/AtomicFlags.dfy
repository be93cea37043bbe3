/** The spin loop under every word of the repository: load, ask `admits`, try to
    swap in `desire`, start over when another thread got in between or the weak
    exchange failed for no reason. Other threads are a schedule of stores that land
    just before each atomic access. */
module AtomicFlags {
  import opened Common

  datatype CmpxchResult<T> = Succ(value: T) | Fail(value: T) | Unexpected(value: T)

  /** What happens at one atomic access: the stores of other threads that land just
      before it, and whether a weak exchange fails spuriously. */
  datatype Tick<T> = Tick(others: seq<T>, spurious: bool)

  /** One store, by the thread that runs the loop or by another one. */
  datatype Write<T> = Own(value: T) | Other(value: T)

  /** The stores to one cell, first to last; never empty. */
  type Log<T> = seq<Write<T>>

  function Current<T>(log: Log<T>): T
    requires log != []
  {
    log[|log| - 1].value
  }

  function Interfered<T>(log: Log<T>, others: seq<T>): (r: Log<T>)
    ensures |r| == |log| + |others|
  {
    log + seq(|others|, i requires 0 <= i < |others| => Other(others[i]))
  }

  /** The loop from the moment it holds the loaded value `current`. No answer when the
      schedule ends first. */
  function Spin<T(==)>(log: Log<T>, current: T, admits: T -> bool, desire: T -> T, ticks: seq<Tick<T>>)
    : (r: (Option<CmpxchResult<T>>, Log<T>))
    requires log != []
    decreases |ticks|
  {
    if !admits(current) then (Some(Unexpected(current)), log)
    else if ticks == [] then (None, log)
    else
      var seen := Interfered(log, ticks[0].others);
      if Current(seen) == current && !ticks[0].spurious then
        (Some(Succ(current)), seen + [Own(desire(current))])
      else
        Spin(seen, Current(seen), admits, desire, ticks[1..])
  }

  /** Whether the stores from index `from` on all belong to other threads. */
  ghost predicate OthersOnly<T>(log: Log<T>, from: nat, to: nat)
    requires to <= |log|
  {
    forall i :: from <= i < to ==> log[i].Other?
  }

  /** What a call with the log `log`, whose loaded value is at `at`, may come to. Success
      means that the word was `x` with `admits(x)` at the instant just before the last
      store, and that this one store, the thread's only one, put `desire(x)`. Refusal
      means that the thread stored nothing and that at some instant the word held an `x`
      without `admits(x)`. */
  ghost predicate Linearized<T>(log: Log<T>, at: nat, admits: T -> bool, desire: T -> T,
                                      out: Option<CmpxchResult<T>>, end: Log<T>)
  {
    && |log| <= |end| && end[..|log|] == log
    && match out
       case None => OthersOnly(end, |log|, |end|)
       case Some(Fail(_)) => false
       case Some(Unexpected(x)) =>
         && OthersOnly(end, |log|, |end|) && !admits(x)
         && exists k :: at <= k < |end| && end[k].value == x
       case Some(Succ(x)) =>
         && |log| < |end| && OthersOnly(end, |log|, |end| - 1)
         && admits(x) && 2 <= |end| && end[|end| - 2].value == x && end[|end| - 1] == Own(desire(x))
  }

  /** What others stored before a new try counts as theirs. */
  lemma StartedEarlier<T>(log: Log<T>, at: nat, others: seq<T>, admits: T -> bool, desire: T -> T,
                          out: Option<CmpxchResult<T>>, end: Log<T>)
    requires at < |log|
    requires var seen := Interfered(log, others); Linearized(seen, |seen| - 1, admits, desire, out, end)
    ensures Linearized(log, at, admits, desire, out, end)
  {
    var seen := Interfered(log, others);
    assert seen[..|log|] == log && OthersOnly(seen, |log|, |seen|);
    assert forall i :: 0 <= i < |seen| ==> end[i] == end[..|seen|][i];
  }

  /** Linearization, whatever other threads store and however often the exchange fails. */
  lemma {:induction false} LinearizationPoint<T>(
      log: Log<T>, at: nat, admits: T -> bool, desire: T -> T, ticks: seq<Tick<T>>)
    requires at < |log|
    ensures var (out, end) := Spin(log, log[at].value, admits, desire, ticks);
      Linearized(log, at, admits, desire, out, end)
    decreases |ticks|
  {
    if admits(log[at].value) && ticks != [] {
      var seen := Interfered(log, ticks[0].others);
      if !(Current(seen) == log[at].value && !ticks[0].spurious) {
        LinearizationPoint(seen, |seen| - 1, admits, desire, ticks[1..]);
        hide Linearized;
        var (out, end) := Spin(seen, Current(seen), admits, desire, ticks[1..]);
        StartedEarlier(log, at, ticks[0].others, admits, desire, out, end);
      }
    }
  }

  /** One undisturbed access is enough: a schedule with a tick in which no other thread
      stores and the exchange does not fail spuriously, right after a tick that left a
      fresh value in hand, always gives an answer. */
  lemma {:induction false} AnswersWhenUndisturbed<T>(
      log: Log<T>, current: T, admits: T -> bool, desire: T -> T, ticks: seq<Tick<T>>, quiet: nat)
    requires log != [] && quiet < |ticks|
    requires ticks[quiet] == Tick([], false) && (quiet == 0 ==> Current(log) == current)
    ensures Spin(log, current, admits, desire, ticks).0.Some?
    decreases |ticks|
  {
    var seen := Interfered(log, ticks[0].others);
    if quiet == 0 {
      assert seen == log;
    } else if admits(current) {
      AnswersWhenUndisturbed(seen, Current(seen), admits, desire, ticks[1..], quiet - 1);
    }
  }

  /** A shared word. `log` records every store it has seen. */
  class AtomicCell<T(==)> {
    var value: T
    ghost var log: Log<T>

    constructor (v: T)
      ensures Valid() && log == [Other(v)]
    {
      value, log := v, [Other(v)];
    }

    ghost predicate Valid()
      reads this
    {
      log != [] && value == Current(log)
    }

    method Interfere(others: seq<T>)
      requires Valid()
      modifies this
      ensures Valid() && log == Interfered(old(log), others)
    {
      if others != [] {
        value := others[|others| - 1];
      }
      log := Interfered(log, others);
    }

    method Load(tick: Tick<T>) returns (v: T)
      requires Valid()
      modifies this
      ensures Valid() && log == Interfered(old(log), tick.others) && v == Current(log)
    {
      Interfere(tick.others);
      v := value;
    }

    /** `compare_exchange_weak`: on failure the value found there is returned. */
    method CompareExchangeWeak(tick: Tick<T>, current: T, desired: T) returns (ok: bool, found: T)
      requires Valid()
      modifies this
      ensures Valid()
      ensures var seen := Interfered(old(log), tick.others);
        && found == Current(seen) && ok == (found == current && !tick.spurious)
        && log == if ok then seen + [Own(desired)] else seen
    {
      Interfere(tick.others);
      found := value;
      ok := found == current && !tick.spurious;
      if ok {
        value := desired;
        log := log + [Own(desired)];
      }
    }

    method TryOnceCompareExchangeWeak(tick: Tick<T>, current: T, admits: T -> bool, desire: T -> T)
      returns (r: CmpxchResult<T>)
      requires Valid()
      modifies this
      ensures Valid()
      ensures !admits(current) ==> r == Unexpected(current) && log == old(log)
      ensures admits(current) ==>
        var seen := Interfered(old(log), tick.others);
        if Current(seen) == current && !tick.spurious
        then r == Succ(current) && log == seen + [Own(desire(current))]
        else r == Fail(Current(seen)) && log == seen
    {
      if !admits(current) {
        return Unexpected(current);
      }
      var desired := desire(current);
      var ok, found := CompareExchangeWeak(tick, current, desired);
      r := if ok then Succ(found) else Fail(found);
    }

    /** The spin loop agrees with `Spin`, started from a fresh load. */
    method TrySpinCompareExchangeWeak(admits: T -> bool, desire: T -> T, load: Tick<T>, ticks: seq<Tick<T>>)
      returns (r: Option<CmpxchResult<T>>)
      requires Valid()
      modifies this
      ensures Valid()
      ensures var start := Interfered(old(log), load.others);
        (r, log) == Spin(start, Current(start), admits, desire, ticks)
    {
      var current := Load(load);
      ghost var start := log;
      var i := 0;
      while i < |ticks|
        invariant 0 <= i <= |ticks| && Valid()
        invariant Spin(log, current, admits, desire, ticks[i..])
               == Spin(start, Current(start), admits, desire, ticks)
      {
        var once := TryOnceCompareExchangeWeak(ticks[i], current, admits, desire);
        if once.Fail? {
          current := once.value;
        } else {
          return Some(once);
        }
        i := i + 1;
      }
      r := if admits(current) then None else Some(Unexpected(current));
    }
  }
}
