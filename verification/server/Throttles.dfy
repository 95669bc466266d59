/** The lock-free progress throttle, under any interleaving of any number of threads. */
module Throttles {
  import opened Sequences
  import opened Clock

  /** The tick of an event `nanos` after the origin: whole milliseconds plus one, never zero. */
  function Tick(nanos: nat): (at: nat)
    ensures 1 <= at <= U64_MAX
  {
    SaturatingAdd(SaturatingMillis(nanos), 1)
  }

  /** Ticks count milliseconds from one, and stop at the 64-bit maximum. */
  lemma TickIsExact(nanos: nat)
    ensures Tick(nanos) == if nanos / 1_000_000 >= 0xFFFF_FFFF_FFFF_FFFF then 0xFFFF_FFFF_FFFF_FFFF else nanos / 1_000_000 + 1
  {
    SaturatingMillisIsExact(nanos);
  }

  /** An event less than a window after the last that passed; the first event never is. */
  predicate TooSoon(window: nat, last: nat, at: nat) {
    last != 0 && SaturatingSub(at, last) < window
  }

  // ----- all threads

  /** A thread between calls, or between its load and its exchange. `before` counts the passes at its load. */
  datatype Pc = Idle | Racing(at: nat, seen: nat, before: nat)

  /** `passed` logs the ticks of the events that passed, in order. */
  datatype Shared = Shared(window: nat, last: nat, threads: seq<Pc>, passed: seq<nat>)

  datatype Move = Load(thread: nat, nanos: nat) | Exchange(thread: nat)

  function Step(s: Shared, move: Move): Shared
    requires move.thread < |s.threads|
  {
    match (move, s.threads[move.thread])
    case (Load(i, nanos), Idle) =>
      if TooSoon(s.window, s.last, Tick(nanos)) then s
      else s.(threads := s.threads[i := Racing(Tick(nanos), s.last, |s.passed|)])
    case (Exchange(i), Racing(at, seen, _)) =>
      if s.last == seen
      then s.(last := at, threads := s.threads[i := Idle], passed := s.passed + [at])
      else s.(threads := s.threads[i := Idle])
    case _ => s
  }

  predicate MovesOf(moves: seq<Move>, threads: nat) {
    forall k :: 0 <= k < |moves| ==> moves[k].thread < threads
  }

  function Run(s: Shared, moves: seq<Move>): (t: Shared)
    requires MovesOf(moves, |s.threads|)
    ensures |t.threads| == |s.threads| && t.window == s.window
    decreases |moves|
  {
    if moves == [] then s else Run(Step(s, moves[0]), moves[1..])
  }

  function Start(window: nat, threads: nat): Shared {
    Shared(window, 0, seq(threads, _ => Idle), [])
  }

  // ----- the object

  /** No move of thread `i`. */
  predicate OthersOnly(moves: seq<Move>, i: nat) {
    forall k :: 0 <= k < |moves| ==> moves[k].thread != i
  }

  /** Other threads' moves leave a thread where it stands. */
  lemma {:induction false} OthersLeaveAlone(s: Shared, moves: seq<Move>, i: nat)
    requires MovesOf(moves, |s.threads|) && OthersOnly(moves, i) && i < |s.threads|
    ensures Run(s, moves).threads[i] == s.threads[i]
    decreases |moves|
  {
    if moves != [] {
      OthersLeaveAlone(Step(s, moves[0]), moves[1..], i);
    }
  }

  /** The shared state once thread `i` has loaded and the others have made their `moves`. */
  function Meanwhile(s: Shared, i: nat, nanos: nat, moves: seq<Move>): Shared
    requires i < |s.threads| && MovesOf(moves, |s.threads|)
  {
    Run(Step(s, Load(i, nanos)), moves)
  }

  /** As long as nothing passes, the last tick stays. */
  lemma {:induction false} LastNeedsPass(s: Shared, moves: seq<Move>)
    requires MovesOf(moves, |s.threads|)
    ensures s.passed <= Run(s, moves).passed
    ensures Run(s, moves).passed == s.passed ==> Run(s, moves).last == s.last
    decreases |moves|
  {
    if moves != [] {
      var next := Step(s, moves[0]);
      LastNeedsPass(next, moves[1..]);
      PrefixTransitive(s.passed, next.passed, Run(next, moves[1..]).passed);
    }
  }

  /** While a thread races, its own tick and what it saw stay; so does the last tick until an event passes. */
  lemma MeanwhileKept(s: Shared, i: nat, nanos: nat, moves: seq<Move>)
    requires i < |s.threads| && MovesOf(moves, |s.threads|)
    ensures Meanwhile(s, i, nanos, moves).passed == s.passed ==> Meanwhile(s, i, nanos, moves).last == s.last
    ensures s.window >= 1 && Safe(s) && Meanwhile(s, i, nanos, moves).passed != s.passed ==>
              s.last < Meanwhile(s, i, nanos, moves).last
  {
    var loaded := Step(s, Load(i, nanos));
    LastNeedsPass(loaded, moves);
    if s.window >= 1 && Safe(s) {
      StepKeepsSafe(s, Load(i, nanos));
      RunKeepsSafe(loaded, moves);
      var later := Run(loaded, moves).passed;
      if later != s.passed {
        NoValueReturns(s.window, later, |s.passed|);
        assert later[..|s.passed|] == s.passed;
        assert LastAfter(later, |s.passed|) == LastAfter(s.passed, |s.passed|);
      }
    }
  }

  class Throttle {
    /** The window in whole milliseconds. */
    const window: nat
    /** The latest pass, as a tick; zero before the first. */
    var last: nat

    constructor (windowNanos: nat)
      ensures window == SaturatingMillis(windowNanos) && last == 0
    {
      window := SaturatingMillis(windowNanos);
      last := 0;
    }

    /** The throttle of `s`, as thread `i` finds it between two calls. */
    ghost predicate Is(s: Shared, i: nat)
      reads this
    {
      i < |s.threads| && s.threads[i].Idle? && s.window == window && s.last == last
    }

    method CompareExchange(expected: nat, desired: nat) returns (swapped: bool)
      modifies this
      ensures swapped == (old(last) == expected)
      ensures last == if swapped then desired else old(last)
    {
      swapped := last == expected;
      if swapped {
        last := desired;
      }
    }

    /**
     * Whether an event of thread `i` passes: its load, then `moves` of the other threads,
     * after which they have left `stored` behind, then its exchange. An event that comes too
     * soon ends with the load.
     */
    method ShouldEmit(nanos: nat, stored: nat, ghost s: Shared, ghost i: nat, ghost moves: seq<Move>)
      returns (emitted: bool)
      requires Is(s, i) && MovesOf(moves, |s.threads|) && OthersOnly(moves, i)
      requires stored == Meanwhile(s, i, nanos, moves).last
      modifies this
      ensures TooSoon(window, old(last), Tick(nanos)) ==> !emitted && last == old(last) && Step(s, Load(i, nanos)) == s
      ensures !TooSoon(window, old(last), Tick(nanos)) ==>
        var before := Meanwhile(s, i, nanos, moves);
        var after := Step(before, Exchange(i));
        && last == after.last && after.threads[i].Idle?
        && after.passed == if emitted then before.passed + [Tick(nanos)] else before.passed
      ensures window >= 1 && Meanwhile(s, i, nanos, moves).passed == s.passed ==>
        (emitted <==> old(last) == 0 || old(last) + window <= Tick(nanos))
      ensures window >= 1 && Safe(s) && Meanwhile(s, i, nanos, moves).passed != s.passed ==> !emitted
    {
      MeanwhileKept(s, i, nanos, moves);
      var at := Tick(nanos);
      var seen := last;
      if TooSoon(window, seen, at) {
        return false;
      }
      OthersLeaveAlone(Step(s, Load(i, nanos)), moves, i);
      last := stored;
      emitted := CompareExchange(seen, at);
    }
  }

  // ----- what every run keeps

  /** What `last` held when `n` events had passed. */
  function LastAfter(passed: seq<nat>, n: nat): nat
    requires n <= |passed|
  {
    if n == 0 then 0 else passed[n - 1]
  }

  /** Consecutive passes are a window apart. */
  predicate Spaced(window: nat, passed: seq<nat>) {
    && (forall k :: 0 <= k < |passed| ==> 1 <= passed[k])
    && (forall k :: 0 < k < |passed| ==> passed[k - 1] + window <= passed[k])
  }

  /** A racing thread saw the last pass of its load, and its own tick is a window past that. */
  predicate RacingOk(s: Shared, pc: Pc) {
    pc.Racing? ==>
      && pc.before <= |s.passed| && pc.seen == LastAfter(s.passed, pc.before)
      && 1 <= pc.at && (pc.seen == 0 || pc.seen + s.window <= pc.at)
  }

  predicate Safe(s: Shared) {
    && s.last == LastAfter(s.passed, |s.passed|)
    && Spaced(s.window, s.passed)
    && forall i :: 0 <= i < |s.threads| ==> RacingOk(s, s.threads[i])
  }

  /** Any number of passes spans the windows between them. */
  lemma {:induction false} PassesSpan(window: nat, passed: seq<nat>, i: nat, j: nat)
    requires Spaced(window, passed) && i <= j < |passed|
    ensures passed[i] + (j - i) * window <= passed[j]
    decreases j
  {
    if i < j {
      PassesSpan(window, passed, i, j - 1);
      assert (j - i) * window == (j - 1 - i) * window + window;
    }
  }

  /** With a window of at least one tick no value of `last` ever returns. */
  lemma NoValueReturns(window: nat, passed: seq<nat>, n: nat)
    requires window >= 1 && Spaced(window, passed) && n < |passed|
    ensures LastAfter(passed, n) < LastAfter(passed, |passed|)
  {
    if n > 0 {
      PassesSpan(window, passed, n - 1, |passed| - 1);
      assert (|passed| - n) * window >= 1 by {
        assert |passed| - n >= 1;
        SpanGrows(|passed| - n, window);
      }
    }
  }

  lemma SpanGrows(n: nat, window: nat)
    requires n >= 1
    ensures n * window >= window
  {
  }

  lemma StepKeepsSafe(s: Shared, move: Move)
    requires s.window >= 1 && Safe(s) && move.thread < |s.threads|
    ensures Safe(Step(s, move))
  {
    var t, pc := Step(s, move), s.threads[move.thread];
    assert RacingOk(s, pc);
    forall i | 0 <= i < |t.threads| ensures RacingOk(t, t.threads[i]) {
      if i != move.thread {
        assert t.threads[i] == s.threads[i] && RacingOk(s, s.threads[i]);
      }
    }
  }

  /**
   * An exchange succeeds exactly when no event has passed since its thread's load. So a
   * stale one never lands, and a failed one means that another thread's event passed.
   */
  lemma ExchangeLandsIffNothingPassed(s: Shared, i: nat)
    requires s.window >= 1 && Safe(s) && i < |s.threads| && s.threads[i].Racing?
    ensures var t := Step(s, Exchange(i));
            if s.threads[i].before == |s.passed| then t.passed == s.passed + [s.threads[i].at]
            else t.passed == s.passed && s.threads[i].before < |s.passed|
  {
    assert RacingOk(s, s.threads[i]);
    if s.threads[i].before < |s.passed| {
      NoValueReturns(s.window, s.passed, s.threads[i].before);
    }
  }

  /** Every run: `last` only ever grows, and the passes keep a window between them. */
  lemma {:induction false} RunKeepsSafe(s: Shared, moves: seq<Move>)
    requires s.window >= 1 && Safe(s) && MovesOf(moves, |s.threads|)
    ensures Safe(Run(s, moves)) && s.last <= Run(s, moves).last
    ensures s.passed <= Run(s, moves).passed
    decreases |moves|
  {
    if moves != [] {
      var next := Step(s, moves[0]);
      StepKeepsSafe(s, moves[0]);
      assert RacingOk(s, s.threads[moves[0].thread]);
      RunKeepsSafe(next, moves[1..]);
      PrefixTransitive(s.passed, next.passed, Run(next, moves[1..]).passed);
    }
  }

  lemma RunBoth(s: Shared, a: Move, b: Move)
    requires a.thread < |s.threads| && b.thread < |s.threads|
    ensures Run(s, [a, b]) == Step(Step(s, a), b)
  {
    assert [a, b][1..] == [b] && [b][1..] == [];
    assert Run(Step(s, a), [b]) == Run(Step(Step(s, a), b), []);
  }

  /**
   * A call nothing comes between: its event passes, and is the new last one, exactly when it
   * is the first or a window past the last; otherwise nothing changes.
   */
  lemma LoneEventPassesIff(s: Shared, i: nat, nanos: nat)
    requires s.window >= 1 && i < |s.threads| && s.threads[i].Idle?
    ensures Run(s, [Load(i, nanos), Exchange(i)])
         == if s.last == 0 || s.last + s.window <= Tick(nanos)
            then s.(last := Tick(nanos), passed := s.passed + [Tick(nanos)])
            else s
  {
    RunBoth(s, Load(i, nanos), Exchange(i));
    assert s.threads[i := Idle] == s.threads;
    var loaded := Step(s, Load(i, nanos));
    if loaded != s {
      assert loaded.threads[i := Idle] == s.threads;
    }
  }

  /** From a new throttle, however threads and clocks interleave, passes keep their distance. */
  lemma PassesKeepTheWindow(windowNanos: nat, threads: nat, moves: seq<Move>, i: nat, j: nat)
    requires windowNanos >= NANOS_PER_MILLI
    requires MovesOf(moves, threads)
    requires i <= j < |Run(Start(SaturatingMillis(windowNanos), threads), moves).passed|
    ensures var passed := Run(Start(SaturatingMillis(windowNanos), threads), moves).passed;
            passed[i] + (j - i) * SaturatingMillis(windowNanos) <= passed[j]
  {
    SaturatingMillisIsExact(windowNanos);
    var s := Start(SaturatingMillis(windowNanos), threads);
    RunKeepsSafe(s, moves);
    PassesSpan(s.window, Run(s, moves).passed, i, j);
  }

  /** A window below a millisecond throttles nothing, and lets `last` run backwards. */
  lemma ShortWindowGoesBack(windowNanos: nat)
    requires windowNanos < NANOS_PER_MILLI
    ensures var moves := [Load(0, NANOS_PER_MILLI), Exchange(0), Load(0, 0), Exchange(0)];
            Run(Start(SaturatingMillis(windowNanos), 1), moves).passed == [2, 1]
  {
    SaturatingMillisIsExact(windowNanos);
    var s := Start(0, 1);
    var a := Step(s, Load(0, NANOS_PER_MILLI));
    assert Tick(NANOS_PER_MILLI) == 2 && Tick(0) == 1;
    assert a == Shared(0, 0, [Racing(2, 0, 0)], []);
    var b := Step(a, Exchange(0));
    assert b == Shared(0, 2, [Idle], [2]);
    var c := Step(b, Load(0, 0));
    assert c == Shared(0, 2, [Racing(1, 2, 1)], [2]);
    var d := Step(c, Exchange(0));
    assert d.passed == [2, 1];
    RunOne(s, Load(0, NANOS_PER_MILLI), [Exchange(0), Load(0, 0), Exchange(0)]);
    RunOne(a, Exchange(0), [Load(0, 0), Exchange(0)]);
    RunOne(b, Load(0, 0), [Exchange(0)]);
    RunOne(c, Exchange(0), []);
  }

  lemma RunOne(s: Shared, move: Move, moves: seq<Move>)
    requires move.thread < |s.threads| && MovesOf(moves, |s.threads|)
    ensures MovesOf([move] + moves, |s.threads|)
    ensures Run(s, [move] + moves) == Run(Step(s, move), moves)
  {
    assert ([move] + moves)[1..] == moves;
  }
}
