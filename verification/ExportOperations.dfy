/** The deliveries of a worker that are in flight, and what `stop` waits for
    (internal/exporter/manager.go). */
module ExportOperations {

  /** The registered operations, those that are over but have not left the wait group yet, the
      wait group's count, and the flag. Registering happens under one lock with the test of the
      flag; an operation leaves the register and the wait group in two steps. */
  datatype Operations =
    Operations(stopping: bool, registered: set<nat>, leaving: set<nat>, count: int, used: set<nat>)

  datatype Move = Begin(operation: nat) | Remove(operation: nat) | Done(operation: nat) | RequestStop | Start

  /** Operation ids are fresh, and completing an operation a second time does nothing. */
  function Moved(o: Operations, move: Move): Operations {
    match move
    case Begin(x) =>
      if o.stopping || x in o.used then o
      else o.(registered := o.registered + {x}, count := o.count + 1, used := o.used + {x})
    case Remove(x) =>
      if x in o.registered then o.(registered := o.registered - {x}, leaving := o.leaving + {x}) else o
    case Done(x) =>
      if x in o.leaving then o.(leaving := o.leaving - {x}, count := o.count - 1) else o
    case RequestStop => o.(stopping := true)
    case Start => o.(stopping := false)
  }

  function MovedAll(o: Operations, moves: seq<Move>): Operations
    decreases |moves|
  {
    if moves == [] then o else Moved(MovedAll(o, moves[..|moves| - 1]), moves[|moves| - 1])
  }

  const IDLE := Operations(false, {}, {}, 0, {})

  predicate Counted(o: Operations) {
    && o.registered !! o.leaving && o.registered + o.leaving <= o.used
    && o.count == |o.registered| + |o.leaving|
  }

  lemma MoveIsCounted(o: Operations, move: Move)
    requires Counted(o)
    ensures Counted(Moved(o, move))
  {
  }

  /** In every reachable state the wait group counts the operations in flight and those leaving. */
  lemma {:induction false} CountIsExact(moves: seq<Move>)
    ensures Counted(MovedAll(IDLE, moves))
    decreases |moves|
  {
    if moves != [] {
      CountIsExact(moves[..|moves| - 1]);
      MoveIsCounted(MovedAll(IDLE, moves[..|moves| - 1]), moves[|moves| - 1]);
    }
  }

  /** Once a stop was requested no operation begins before the next start, and if the wait
      group has come to zero, which is what `stop` waits for, none is in flight until then. */
  lemma {:induction false} QuietUntilStart(before: seq<Move>, later: seq<Move>)
    requires MovedAll(IDLE, before).stopping && Start !in later
    ensures var stopped := MovedAll(IDLE, before); var o := MovedAll(stopped, later);
      && o.stopping && o.registered <= stopped.registered && o.used == stopped.used
      && (stopped.count == 0 ==> o.registered == {})
    decreases |later|
  {
    CountIsExact(before);
    if later != [] {
      QuietUntilStart(before, later[..|later| - 1]);
      assert later[|later| - 1] in later;
    }
  }
}
