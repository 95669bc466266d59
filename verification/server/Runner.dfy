/** Tool calls on the blocking pool: one permit each, under cancellation and panics. */
module Runner {
  const ID_VALUES: nat := 0x1_0000_0000_0000_0000

  /** Where a call's future stands: the await it is parked on, or how it ended. */
  datatype Phase =
    | Queued                  // telling the consumer it was received
    | Waiting                 // for a permit
    | Starting                // telling the consumer it runs, holding the permit
    | Working                 // for its blocking closure, which holds the permit
    | Finishing(ok: bool)     // telling the consumer it completed
    | Completed(ok: bool)
    | Cancelled

  /** The closure a call handed to the pool; it owns the permit until it ends. */
  datatype Closure = NotSpawned | Scheduled | Running | Ended(ok: bool)

  datatype ToolCall = ToolCall(id: nat, phase: Phase, closure: Closure, logged: nat)

  datatype Server = Server(free: nat, closed: bool, nextId: nat, calls: seq<ToolCall>)

  /** One step: of a call's future, of its closure on a pool thread, or a cancellation. */
  datatype Move =
    | Arrive
    | Advance(call: nat)            // the parked await finishes
    | StartClosure(call: nat)
    | EndClosure(call: nat, ok: bool)   // it returns or fails; a panic is `ok == false`
    | Cancel(call: nat)             // the future is dropped at its await

  predicate InFlight(phase: Phase) {
    !phase.Completed? && !phase.Cancelled?
  }

  predicate OwnsPermit(closure: Closure) {
    closure.Scheduled? || closure.Running?
  }

  predicate Holds(call: ToolCall) {
    call.phase.Starting? || OwnsPermit(call.closure)
  }

  function AdvanceCall(call: ToolCall, free: nat, closed: bool): (ToolCall, nat) {
    match call.phase
    case Queued => (call.(phase := Waiting), free)
    case Waiting =>
      if closed then (call.(phase := Finishing(false)), free)
      else if free > 0 then (call.(phase := Starting), free - 1)
      else (call, free)
    case Starting => (call.(phase := Working, closure := Scheduled), free)
    case Working =>
      if call.closure.Ended? then (call.(phase := Finishing(call.closure.ok)), free) else (call, free)
    case Finishing(ok) => (call.(phase := Completed(ok), logged := call.logged + 1), free)
    case _ => (call, free)
  }

  /** Dropping the future drops what it holds: its permit, unless that moved into the closure. */
  function CancelCall(call: ToolCall, free: nat): (ToolCall, nat) {
    if !InFlight(call.phase) then (call, free)
    else (call.(phase := Cancelled), if call.phase.Starting? then free + 1 else free)
  }

  function EndCall(call: ToolCall, ok: bool, free: nat): (ToolCall, nat) {
    if call.closure.Running? then (call.(closure := Ended(ok)), free + 1) else (call, free)
  }

  predicate MoveOf(move: Move, calls: nat) {
    move.Arrive? || move.call < calls
  }

  function Put(s: Server, i: nat, changed: (ToolCall, nat)): Server
    requires i < |s.calls|
  {
    s.(calls := s.calls[i := changed.0], free := changed.1)
  }

  function Step(s: Server, move: Move): Server {
    if !MoveOf(move, |s.calls|) then s
    else
      match move
      case Arrive =>
        s.(nextId := (s.nextId + 1) % ID_VALUES, calls := s.calls + [ToolCall(s.nextId, Queued, NotSpawned, 0)])
      case Advance(i) => Put(s, i, AdvanceCall(s.calls[i], s.free, s.closed))
      case StartClosure(i) =>
        if s.calls[i].closure.Scheduled? then s.(calls := s.calls[i := s.calls[i].(closure := Running)]) else s
      case EndClosure(i, ok) => Put(s, i, EndCall(s.calls[i], ok, s.free))
      case Cancel(i) => Put(s, i, CancelCall(s.calls[i], s.free))
  }

  function Run(s: Server, moves: seq<Move>): Server
    decreases |moves|
  {
    if moves == [] then s else Run(Step(s, moves[0]), moves[1..])
  }

  function Start(bound: nat, closed: bool): Server {
    Server(bound, closed, 1, [])
  }

  // ----- what every run keeps

  function One(b: bool): nat {
    if b then 1 else 0
  }

  /** How many permits are out. */
  function Held(calls: seq<ToolCall>): nat {
    if calls == [] then 0 else Held(calls[..|calls| - 1]) + One(Holds(calls[|calls| - 1]))
  }

  function RunningClosures(calls: seq<ToolCall>): nat {
    if calls == [] then 0
    else RunningClosures(calls[..|calls| - 1]) + One(calls[|calls| - 1].closure.Running?)
  }

  lemma {:induction false} HeldUpdate(calls: seq<ToolCall>, i: nat, call: ToolCall)
    requires i < |calls|
    ensures Held(calls[i := call]) + One(Holds(calls[i])) == Held(calls) + One(Holds(call))
    decreases |calls|
  {
    var last := |calls| - 1;
    var changed := calls[i := call];
    if i == last {
      assert changed[..last] == calls[..last];
    } else {
      assert changed[..last] == calls[..last][i := call];
      HeldUpdate(calls[..last], i, call);
    }
  }

  lemma {:induction false} RunningHold(calls: seq<ToolCall>)
    ensures RunningClosures(calls) <= Held(calls)
    decreases |calls|
  {
    if calls != [] {
      RunningHold(calls[..|calls| - 1]);
    }
  }

  /** A future and its closure agree: a permit is never held twice, and a completion is logged once. */
  predicate CallOk(call: ToolCall) {
    && (call.phase in {Queued, Waiting, Starting} ==> call.closure.NotSpawned?)
    && (call.phase.Working? ==> !call.closure.NotSpawned?)
    && (call.phase.Finishing? || call.phase.Completed? ==> !OwnsPermit(call.closure))
    && call.logged == One(call.phase.Completed?)
  }

  predicate Safe(s: Server, bound: nat) {
    && s.free + Held(s.calls) == bound
    && s.nextId == (1 + |s.calls|) % ID_VALUES
    && forall i :: 0 <= i < |s.calls| ==> CallOk(s.calls[i]) && s.calls[i].id == (1 + i) % ID_VALUES
  }

  /** A call and the free permits after one of its own steps. */
  predicate Exchanges(call: ToolCall, free: nat, changed: (ToolCall, nat)) {
    && (CallOk(call) ==> CallOk(changed.0)) && changed.0.id == call.id
    && free + One(Holds(call)) == changed.1 + One(Holds(changed.0))
  }

  lemma CallStepsExchange(call: ToolCall, free: nat, closed: bool, ok: bool)
    requires CallOk(call)
    ensures Exchanges(call, free, AdvanceCall(call, free, closed))
    ensures Exchanges(call, free, CancelCall(call, free))
    ensures Exchanges(call, free, EndCall(call, ok, free))
  {
  }

  lemma PutKeepsSafe(s: Server, bound: nat, i: nat, changed: (ToolCall, nat))
    requires Safe(s, bound) && i < |s.calls| && Exchanges(s.calls[i], s.free, changed)
    ensures Safe(Put(s, i, changed), bound)
  {
    HeldUpdate(s.calls, i, changed.0);
  }

  lemma ArriveKeepsSafe(s: Server, bound: nat)
    requires Safe(s, bound)
    ensures Safe(Step(s, Arrive), bound)
  {
    NextResidue(1 + |s.calls|);
    assert (s.calls + [ToolCall(s.nextId, Queued, NotSpawned, 0)])[..|s.calls|] == s.calls;
  }

  lemma NextResidue(n: nat)
    ensures (n % ID_VALUES + 1) % ID_VALUES == (n + 1) % ID_VALUES
  {
    var q, r := n / ID_VALUES, n % ID_VALUES;
    assert n + 1 == q * ID_VALUES + (r + 1);
  }

  lemma MoveExchanges(s: Server, move: Move)
    requires !move.Arrive? && move.call < |s.calls| && CallOk(s.calls[move.call])
    ensures exists changed :: Step(s, move) == Put(s, move.call, changed) && Exchanges(s.calls[move.call], s.free, changed)
  {
    var i := move.call;
    var call := s.calls[i];
    match move
    case Advance(_) =>
      CallStepsExchange(call, s.free, s.closed, false);
      assert Step(s, move) == Put(s, i, AdvanceCall(call, s.free, s.closed));
    case StartClosure(_) =>
      assert s.calls[i := call] == s.calls;
      var changed := (if call.closure.Scheduled? then call.(closure := Running) else call, s.free);
      assert Step(s, move) == Put(s, i, changed);
    case EndClosure(_, ok) =>
      CallStepsExchange(call, s.free, s.closed, ok);
      assert Step(s, move) == Put(s, i, EndCall(call, ok, s.free));
    case Cancel(_) =>
      CallStepsExchange(call, s.free, s.closed, false);
      assert Step(s, move) == Put(s, i, CancelCall(call, s.free));
  }

  lemma StepKeepsSafe(s: Server, bound: nat, move: Move)
    requires Safe(s, bound)
    ensures Safe(Step(s, move), bound)
  {
    if move.Arrive? {
      ArriveKeepsSafe(s, bound);
    } else if move.call < |s.calls| {
      MoveExchanges(s, move);
      var changed :| Step(s, move) == Put(s, move.call, changed) && Exchanges(s.calls[move.call], s.free, changed);
      PutKeepsSafe(s, bound, move.call, changed);
    }
  }

  lemma {:induction false} RunKeepsSafe(s: Server, bound: nat, moves: seq<Move>)
    requires Safe(s, bound)
    ensures Safe(Run(s, moves), bound)
    decreases |moves|
  {
    if moves != [] {
      StepKeepsSafe(s, bound, moves[0]);
      RunKeepsSafe(Step(s, moves[0]), bound, moves[1..]);
    }
  }

  /**
   * Every run, with calls cancelled at any await and closures that panic: permits are
   * conserved, running closures never exceed the bound, a call that completed logged once
   * and any other has not logged.
   */
  lemma PermitsAreConserved(bound: nat, closed: bool, moves: seq<Move>)
    ensures var t := Run(Start(bound, closed), moves);
            && t.free + Held(t.calls) == bound
            && RunningClosures(t.calls) <= bound
            && forall i :: 0 <= i < |t.calls| ==> t.calls[i].logged == One(t.calls[i].phase.Completed?)
  {
    RunKeepsSafe(Start(bound, closed), bound, moves);
    RunningHold(Run(Start(bound, closed), moves).calls);
  }

  /** Only its closure's end, or a cancellation before there is one, gives a call's permit back. */
  lemma PermitIsKept(s: Server, move: Move, i: nat)
    requires i < |s.calls| && CallOk(s.calls[i]) && Holds(s.calls[i]) && !Holds(Step(s, move).calls[i])
    ensures s.calls[i].phase.Starting? ==> move == Cancel(i)
    ensures !s.calls[i].phase.Starting? ==> move.EndClosure? && move.call == i && s.calls[i].closure.Running?
    ensures Step(s, move).free == s.free + 1
  {
  }

  /** A cancelled call that holds its permit in a closure, or whose closure has ended. */
  predicate RunsOn(call: ToolCall) {
    call.phase.Cancelled? && call.logged == 0 && (OwnsPermit(call.closure) || call.closure.Ended?)
  }

  /** Cancelling a call that waits for its closure takes nothing from the closure. */
  lemma CancelKeepsClosure(s: Server, i: nat)
    requires i < |s.calls| && CallOk(s.calls[i]) && InFlight(s.calls[i].phase) && OwnsPermit(s.calls[i].closure)
    ensures var t := Step(s, Cancel(i));
            t.free == s.free && t.calls[i].closure == s.calls[i].closure && RunsOn(t.calls[i])
  {
  }

  /**
   * Over every later run a cancelled call stays cancelled and never logs, and its closure
   * owns the permit until it ends.
   */
  lemma {:induction false} CancelledClosureRunsOn(s: Server, moves: seq<Move>, i: nat)
    requires i < |s.calls| && RunsOn(s.calls[i])
    ensures i < |Run(s, moves).calls| && RunsOn(Run(s, moves).calls[i])
    decreases |moves|
  {
    if moves != [] {
      var t := Step(s, moves[0]);
      assert RunsOn(t.calls[i]);
      CancelledClosureRunsOn(t, moves[1..], i);
    }
  }

  /** Call ids are unique until the 64-bit counter wraps, and not beyond. */
  lemma IdsUniqueIffNoWrap(bound: nat, closed: bool, moves: seq<Move>)
    ensures var calls := Run(Start(bound, closed), moves).calls;
            (forall i, j :: 0 <= i < j < |calls| ==> calls[i].id != calls[j].id) <==> |calls| <= ID_VALUES
  {
    RunKeepsSafe(Start(bound, closed), bound, moves);
    var calls := Run(Start(bound, closed), moves).calls;
    forall i, j | 0 <= i < j < |calls| && |calls| <= ID_VALUES ensures calls[i].id != calls[j].id {
      ResiduesDiffer(1 + i, 1 + j);
    }
    if |calls| > ID_VALUES {
      assert calls[0].id == 1 % ID_VALUES && calls[ID_VALUES].id == (1 + ID_VALUES) % ID_VALUES;
      assert calls[0].id == calls[ID_VALUES].id;
    }
  }

  lemma ResiduesDiffer(a: nat, b: nat)
    requires a < b < a + ID_VALUES
    ensures a % ID_VALUES != b % ID_VALUES
  {
    var p, q := a / ID_VALUES, b / ID_VALUES;
    assert a == p * ID_VALUES + a % ID_VALUES && b == q * ID_VALUES + b % ID_VALUES;
    assert q == p || q == p + 1;
  }

  lemma RunOne(s: Server, move: Move, moves: seq<Move>)
    ensures Run(s, [move] + moves) == Run(Step(s, move), moves)
  {
    assert ([move] + moves)[1..] == moves;
  }

  /** A call from arrival to completion with nothing in between. */
  function ToTheEnd(ok: bool): seq<Move> {
    [Advance(0)] + ([Advance(0)] + ([Advance(0)] + ([StartClosure(0)]
      + ([EndClosure(0, ok)] + ([Advance(0)] + ([Advance(0)] + []))))))
  }

  /** An undisturbed call goes through: it takes a permit, runs, gives the permit back and logs how it ended. */
  lemma LoneCallCompletes(bound: nat, ok: bool)
    requires bound > 0
    ensures Run(Start(bound, false), [Arrive] + ToTheEnd(ok))
         == Server(bound, false, 2, [ToolCall(1, Completed(ok), Ended(ok), 1)])
  {
    var s := Start(bound, false);
    var finishing := [Advance(0)] + [];
    var joining := [Advance(0)] + finishing;
    var ending := [EndClosure(0, ok)] + joining;
    var starting := [StartClosure(0)] + ending;
    var spawning := [Advance(0)] + starting;
    var acquiring := [Advance(0)] + spawning;
    RunOne(s, Arrive, ToTheEnd(ok));
    s := Step(s, Arrive);
    RunOne(s, Advance(0), acquiring);
    s := Step(s, Advance(0));
    RunOne(s, Advance(0), spawning);
    s := Step(s, Advance(0));
    RunOne(s, Advance(0), starting);
    s := Step(s, Advance(0));
    RunOne(s, StartClosure(0), ending);
    s := Step(s, StartClosure(0));
    RunOne(s, EndClosure(0, ok), joining);
    s := Step(s, EndClosure(0, ok));
    RunOne(s, Advance(0), finishing);
    s := Step(s, Advance(0));
    RunOne(s, Advance(0), []);
  }

  // ----- a closed semaphore

  /** A call that never had a permit, and failed if it is over. */
  predicate NeverStarted(call: ToolCall) {
    && call.closure.NotSpawned? && !call.phase.Starting? && !call.phase.Working?
    && (call.phase.Finishing? || call.phase.Completed? ==> !call.phase.ok)
  }

  /** Once the semaphore is closed no call starts its work, over any run: it waits, was cancelled, or fails. */
  lemma {:induction false} ClosedStartsNothing(s: Server, moves: seq<Move>)
    requires s.closed && forall i :: 0 <= i < |s.calls| ==> NeverStarted(s.calls[i])
    ensures var t := Run(s, moves);
            t.closed && t.free == s.free && forall i :: 0 <= i < |t.calls| ==> NeverStarted(t.calls[i])
    decreases |moves|
  {
    if moves != [] {
      ClosedStep(s, moves[0]);
      ClosedStartsNothing(Step(s, moves[0]), moves[1..]);
    }
  }

  lemma ClosedStep(s: Server, move: Move)
    requires s.closed && forall i :: 0 <= i < |s.calls| ==> NeverStarted(s.calls[i])
    ensures var t := Step(s, move);
            t.closed && t.free == s.free && forall i :: 0 <= i < |t.calls| ==> NeverStarted(t.calls[i])
  {
    if !move.Arrive? && move.call < |s.calls| {
      assert NeverStarted(s.calls[move.call]);
    }
  }

  /** An undisturbed call then completes with an error, and logs that once. */
  lemma ClosedCallFails(bound: nat)
    ensures Run(Start(bound, true), [Arrive] + ([Advance(0)] + ([Advance(0)] + ([Advance(0)] + []))))
         == Server(bound, true, 2, [ToolCall(1, Completed(false), NotSpawned, 1)])
  {
    var s := Start(bound, true);
    var finishing := [Advance(0)] + [];
    var acquiring := [Advance(0)] + finishing;
    RunOne(s, Arrive, [Advance(0)] + acquiring);
    s := Step(s, Arrive);
    RunOne(s, Advance(0), acquiring);
    s := Step(s, Advance(0));
    RunOne(s, Advance(0), finishing);
    s := Step(s, Advance(0));
    RunOne(s, Advance(0), []);
  }
}
