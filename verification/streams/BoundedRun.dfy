/** Running a client command within a deadline, with bounded captured output. */
module BoundedRun {
  import opened Sequences
  import opened Sources

  const POLL_INTERVAL: nat := 20_000_000        // nanoseconds
  const MAX_CAPTURED_BYTES: nat := 0x10_0000

  /** What the capture of a stream keeps. */
  function Kept(bytes: Bytes): Bytes {
    bytes[..Min(|bytes|, MAX_CAPTURED_BYTES)]
  }

  /** The first MiB, and all of a shorter stream. */
  lemma KeptIs(bytes: Bytes)
    ensures Kept(bytes) <= bytes && |Kept(bytes)| == if |bytes| < 1_048_576 then |bytes| else 1_048_576
  {
  }

  /** Keeps the first bytes of a stream and drains the rest, so its writer never blocks. */
  method Capture(stream: Source) returns (kept: Bytes)
    modifies stream
    ensures kept == Kept(old(stream.rest)) && stream.rest == []
  {
    kept := [];
    var ended := false;
    while |kept| < MAX_CAPTURED_BYTES && !ended
      invariant |kept| <= MAX_CAPTURED_BYTES && old(stream.rest) == kept + stream.rest
      invariant ended ==> stream.rest == []
      decreases !ended, |stream.rest|
    {
      var chunk := stream.ReadSome(MAX_CAPTURED_BYTES - |kept|);
      ConcatAssociative(kept, chunk, stream.rest);
      kept := kept + chunk;
      ended := chunk == [];
    }
    assert kept == Kept(old(stream.rest));
    while !ended
      invariant ended ==> stream.rest == []
      decreases !ended, |stream.rest|
    {
      var chunk := stream.ReadSome(8192);
      ended := chunk == [];
    }
  }

  /** What polling the child reports. */
  datatype Poll = Exited(status: int) | StillRunning | PollFailed

  /** A stream's capture: when it is over, if ever, and whether reading failed. */
  datatype Captured = Captured(bytes: Bytes, over: Option<nat>, failed: bool)

  datatype Outcome =
    | Finished(status: int, stdout: Bytes, stderr: Bytes)
    | TimedOut
    | CommandFailed

  /** A child process and the clock it is watched by, in nanoseconds. */
  class Child {
    const polls: nat -> Poll
    /** How long the k-th call takes beyond what it must. */
    const delays: nat -> nat
    const stdout: Captured
    const stderr: Captured
    var time: nat
    var polled: nat
    var sleeps: nat
    var calls: nat
    /** Its exit has been collected, so it is no zombie; or it was killed and waited for. */
    var reaped: bool

    constructor (polls: nat -> Poll, delays: nat -> nat, stdout: Captured, stderr: Captured)
      ensures this.polls == polls && this.stdout == stdout && this.stderr == stderr
      ensures polled == 0 && sleeps == 0 && !reaped
    {
      this.polls := polls;
      this.delays := delays;
      this.stdout := stdout;
      this.stderr := stderr;
      time, polled, sleeps, calls, reaped := 0, 0, 0, 0, false;
    }

    method TryWait() returns (poll: Poll)
      modifies this`time, this`polled, this`calls, this`reaped
      ensures poll == polls(old(polled)) && polled == old(polled) + 1
      ensures time >= old(time) && reaped == (old(reaped) || poll.Exited?)
    {
      poll := polls(polled);
      polled := polled + 1;
      time := time + delays(calls);
      calls := calls + 1;
      reaped := reaped || poll.Exited?;
    }

    method Sleep()
      modifies this`time, this`sleeps, this`calls
      ensures sleeps == old(sleeps) + 1 && time >= old(time) + POLL_INTERVAL
    {
      sleeps := sleeps + 1;
      time := time + POLL_INTERVAL + delays(calls);
      calls := calls + 1;
    }

    method KillAndReap()
      modifies this`time, this`calls, this`reaped
      ensures reaped && time >= old(time)
    {
      reaped := true;
      time := time + delays(calls);
      calls := calls + 1;
    }

    /** Waits for a capture until the deadline; one that is over by then is taken. */
    method Collect(stream: Captured, deadline: nat) returns (bytes: Result<Bytes, Outcome>)
      modifies this`time
      ensures time >= old(time)
      ensures bytes == Collected(stream, deadline, old(time))
      ensures bytes == Err(TimedOut) ==> time >= deadline
      ensures bytes.Ok? ==> IsOver(stream, time)
    {
      if stream.over.None? || (stream.over.value > deadline && stream.over.value > time) {
        time := if time < deadline then deadline else time;
        return Err(TimedOut);
      }
      time := if time < stream.over.value then stream.over.value else time;
      bytes := if stream.failed then Err(CommandFailed) else Ok(Kept(stream.bytes));
    }
  }

  function Collected(stream: Captured, deadline: nat, time: nat): Result<Bytes, Outcome> {
    if stream.over.None? || (stream.over.value > deadline && stream.over.value > time) then Err(TimedOut)
    else if stream.failed then Err(CommandFailed)
    else Ok(Kept(stream.bytes))
  }

  /** A capture that has ended. */
  predicate IsOver(stream: Captured, time: nat) {
    stream.over.Some? && stream.over.value <= time
  }

  /** A capture that is over by the deadline, without an error. */
  predicate InTime(stream: Captured, deadline: nat) {
    stream.over.Some? && stream.over.value <= deadline && !stream.failed
  }

  /** How many polling intervals cover `timeout`. */
  function Intervals(timeout: nat): nat {
    (timeout + POLL_INTERVAL - 1) / POLL_INTERVAL
  }

  /** The fewest intervals that add up to the timeout. */
  lemma IntervalsCover(timeout: nat, n: nat)
    ensures n * 20_000_000 >= timeout <==> n >= Intervals(timeout)
  {
  }

  lemma SleepFits(sleeps: nat, elapsed: nat, timeout: nat)
    requires sleeps * POLL_INTERVAL <= elapsed < timeout
    ensures sleeps < Intervals(timeout)
  {
  }

  /** The child's polls up to the one that ended the wait, all but it still running. */
  predicate WaitedFor(polls: nat -> Poll, polled: nat) {
    forall k :: 0 <= k < polled - 1 ==> polls(k).StillRunning?
  }

  /**
   * Waits for the child, polling, no longer than `timeout`. However it ends the child is
   * reaped, after a bounded number of sleeps, and what it returns of each stream is its
   * first bytes.
   */
  method RunBounded(child: Child, timeout: nat) returns (outcome: Outcome)
    requires child.polled == 0 && child.sleeps == 0
    modifies child
    ensures child.reaped && child.sleeps <= Intervals(timeout)
    ensures child.polled > 0 && WaitedFor(child.polls, child.polled)
    ensures outcome.Finished? ==>
      && child.polls(child.polled - 1) == Exited(outcome.status)
      && outcome.stdout == Kept(child.stdout.bytes) && outcome.stderr == Kept(child.stderr.bytes)
      && !child.stdout.failed && !child.stderr.failed
      && IsOver(child.stdout, child.time) && IsOver(child.stderr, child.time)
    ensures outcome.TimedOut? ==> child.time >= old(child.time) + timeout
    ensures child.polls(child.polled - 1).StillRunning? ==> outcome.TimedOut?
    ensures child.polls(child.polled - 1).PollFailed? ==> outcome.CommandFailed?
    ensures child.polls(child.polled - 1).Exited?
         && InTime(child.stdout, old(child.time) + timeout) && InTime(child.stderr, old(child.time) + timeout)
         ==> outcome.Finished?
    ensures outcome.CommandFailed? && child.polls(child.polled - 1).Exited? ==> child.stdout.failed || child.stderr.failed
  {
    var deadline := child.time + timeout;
    var status := 0;
    while true
      invariant child.polled == child.sleeps && child.sleeps <= Intervals(timeout)
      invariant forall k :: 0 <= k < child.polled ==> child.polls(k).StillRunning?
      invariant child.time >= old(child.time) + child.sleeps * POLL_INTERVAL
      decreases Intervals(timeout) - child.sleeps
    {
      var poll := child.TryWait();
      match poll {
        case Exited(code) =>
          status := code;
          break;
        case StillRunning =>
          if child.time >= deadline {
            child.KillAndReap();
            return TimedOut;
          }
          SleepFits(child.sleeps, child.time - old(child.time), timeout);
          child.Sleep();
        case PollFailed =>
          child.KillAndReap();
          return CommandFailed;
      }
    }
    var stdout := child.Collect(child.stdout, deadline);
    if stdout.Err? {
      return stdout.error;
    }
    var stderr := child.Collect(child.stderr, deadline);
    if stderr.Err? {
      return stderr.error;
    }
    return Finished(status, stdout.value, stderr.value);
  }
}
