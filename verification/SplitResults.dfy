/**
 The pipeline protocol with the three writes of an execution result as steps of their own,
 so that ticks may fall between them: the code's result task runs beside its main loop.
 */
module SplitResults {
  import opened Types
  import P = Pipeline

  /** What the result task is at: nothing, or a result whose canonical number, and then pool, it has written. */
  datatype Task =
    | Idle
    | Written(block: P.OrderedBlock, result: P.ExecutionResult)
    | Advanced(block: P.OrderedBlock, result: P.ExecutionResult)

  /**
   For each block pushed, `drawn` is the first round of the batch in the pool when it was
   built, and `stale` and `lagging` say whether that was while the pool was behind the
   canonical number, and while the epoch was about to change. `taken` is the first round of
   the batch in the pool when its result arrived.
   */
  datatype State = State(
    core: P.State,
    task: Task,
    drawn: seq<nat>,
    stale: seq<bool>,
    lagging: seq<bool>,
    taken: seq<nat>)

  const INITIAL := State(P.INITIAL, Idle, [], [], [], [])

  datatype Event =
    | Submit(subdags: seq<Subdag>)
    | Tick(pushSucceeds: bool)
    | WriteCanonical(result: P.ExecutionResult)
    | AdvancePool
    | WriteEpoch

  datatype Stepped = Next(state: State) | Panicked | NotEnabled

  /** The pool is behind: the canonical number is written, and the pool is yet to advance. */
  predicate PoolBehind(st: State) {
    st.task.Written? && st.task.block.number > 1
  }

  /** The epoch is behind: a result has begun that starts another one. */
  predicate EpochBehind(st: State) {
    st.task != Idle && st.task.result.newEpoch.Some? && st.task.result.newEpoch.value != st.core.epoch
  }

  /** A tick that pushes a block. */
  predicate Pushes(cfg: P.Config, st: State, e: Event) {
    e == Tick(true) && P.TryBuild(cfg, st.core).Some?
  }

  function Ticked(cfg: P.Config, st: State, pushSucceeds: bool): State {
    var now := P.Apply(cfg, st.core, P.Tick(pushSucceeds)).state;
    if Pushes(cfg, st, Tick(pushSucceeds)) then
      st.(core := now,
          drawn := st.drawn + [st.core.pool.next],
          stale := st.stale + [PoolBehind(st)],
          lagging := st.lagging + [EpochBehind(st)])
    else st.(core := now)
  }

  function Apply(cfg: P.Config, st: State, e: Event): Stepped {
    match e
    case Submit(subdags) => Next(st.(core := P.Apply(cfg, st.core, P.Submit(subdags)).state))
    case Tick(pushSucceeds) => Next(Ticked(cfg, st, pushSucceeds))
    case WriteCanonical(result) =>
      if st.task != Idle || st.core.inFlight == None then NotEnabled else
        var b := st.core.inFlight.value;
        Next(st.(core := P.Written(st.core, b), task := Written(b, result)))
    case AdvancePool =>
      (match st.task
       case Written(b, result) =>
         (match P.Advanced(cfg, st.core, b, result)
          case Next(now) => Next(st.(core := now, task := Advanced(b, result), taken := st.taken + [st.core.pool.next]))
          case _ => Panicked)
       case _ => NotEnabled)
    case WriteEpoch =>
      match st.task
      case Advanced(_, result) => Next(st.(core := P.Finished(st.core, result), task := Idle))
      case _ => NotEnabled
  }

  function After(cfg: P.Config, events: seq<Event>): Stepped {
    if events == [] then Next(INITIAL) else
      match After(cfg, events[..|events| - 1])
      case Next(st) => Apply(cfg, st, events[|events| - 1])
      case stopped => stopped
  }
}
