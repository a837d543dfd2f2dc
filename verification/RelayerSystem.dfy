/** The relayer as a step system. Every await of the source is a point where other work may run,
    so a run is any sequence of the steps below: concurrent submitters behind the nonce lock,
    check passes that may overlap (the timer has no guard), gas-price updates and the clock.
    A step that cannot happen in a state yields None. */
module RelayerSystem {
  import opened Common
  import opened GasPricing
  import opened RelayerService

  const MAX_TRIES := 3

  datatype SendError = BelowMinimum | NonceTooLow | OtherError

  /** Where a `submitTransaction` call stands. `Sending` and `Resetting` hold the lock. */
  datatype SubmitPhase =
    | Waiting
    | Sending(price: real, nonce: int)
    | Sent(hash: TxHash, nonce: int)
    | Refreshing
    | WantsReset
    | Resetting
    | Finished

  datatype Submitter = Submitter(data: nat, tries: nat, phase: SubmitPhase)

  /** `current` is history: the gas price that the attempt read when it started. */
  datatype Attempt = InFlight(price: real, current: real) | Repricing | Settled

  /** One `deadLetter` call with its retry counter. */
  datatype Task = Task(tries: nat, attempt: Attempt)

  /** Where a `checkTransactions` call stands. */
  datatype Pass =
    | Fetching(items: Items)
    | Classified(items: Items, mined: set<TxHash>, low: set<TxHash>)
    | Replacing(items: Items, mined: set<TxHash>, expired: set<TxHash>, reason: Reason, tasks: map<TxHash, Task>)
    | Confirming(items: Items, mined: set<TxHash>)

  /** History of the nonce counter: acknowledged sends and resets, oldest first. */
  datatype LogEntry = Accepted(submitter: nat, nonce: int) | Reset(count: int)

  /** History of what reached the network for a submission. */
  datatype Broadcast = Broadcast(submitter: nat, nonce: int, acknowledged: bool)

  datatype Sys = Sys(
    svc: Service,
    lock: Option<nat>,
    submitters: map<nat, Submitter>,
    passes: map<nat, Pass>,
    now: int,
    log: seq<LogEntry>,
    broadcasts: seq<Broadcast>,
    replacements: seq<TxHash>,
    finalised: set<int>,
    tooLow: set<int>)

  /** `leaked`: the transaction was broadcast although its send was rejected, for instance because the
      connection broke before the hash arrived. */
  datatype SubmitAct =
    | Begin(data: nat)
    | Acquire
    | SendOk
    | SendFail(error: SendError, leaked: bool)
    | Refreshed(raw: Option<real>)
    | AcquireReset
    | ResetOk(count: int)
    | ResetFail
    | WatchSent

  datatype CheckAct =
    | Start
    | Summaries(found: set<TxHash>)
    | Judge
    | ReplaceOk(hash: TxHash)
    | ReplaceFail(hash: TxHash, error: SendError)
    | Repriced(hash: TxHash, raw: Option<real>)
    | NextStage
    | Confirm(receipts: set<TxHash>)
    | Abort

  datatype Step =
    | Submit(id: nat, submitAct: SubmitAct)
    | Check(pass: nat, checkAct: CheckAct)
    | GasTick(raw: Option<real>)
    | Clock(ms: nat)

  /** The state at the end of `onModuleInit`. */
  function Boot(cfg: Config, raw: Option<real>, count: int, pool: seq<TxHash>, now: int): Sys {
    Sys(Started(cfg, raw, count, pool, now), None, map[], map[], now, [Reset(count)], [], [], {}, {})
  }

  function SetPhase(s: Sys, id: nat, phase: SubmitPhase): Sys
    requires id in s.submitters
  {
    s.(submitters := s.submitters[id := s.submitters[id].(phase := phase)])
  }

  /** The `retry` decorator after an Err: another try, or the Err is returned. */
  function Again(s: Sys, id: nat): Sys
    requires id in s.submitters
  {
    var a := s.submitters[id];
    s.(submitters := s.submitters[id :=
      if a.tries == MAX_TRIES then a.(phase := Finished)
      else a.(tries := a.tries + 1, phase := Waiting)])
  }

  function NextSubmit(cfg: Config, s: Sys, id: nat, act: SubmitAct): Option<Sys> {
    if act.Begin? then
      if id in s.submitters then None
      else Some(s.(submitters := s.submitters[id := Submitter(act.data, 1, Waiting)]))
    else if id !in s.submitters then None
    else
      var a := s.submitters[id];
      match act
      case Acquire =>
        if a.phase.Waiting? && s.lock == None
        then Some(SetPhase(s, id, Sending(s.svc.gasPrice, s.svc.nonce)).(lock := Some(id)))
        else None
      case SendOk =>
        if a.phase.Sending? then
          var hash := TxHash(a.phase.nonce, ToWei(a.phase.price), Request(a.data));
          Some(SetPhase(s, id, Sent(hash, s.svc.nonce)).(
               lock := None,
               svc := s.svc.(nonce := s.svc.nonce + 1),
               log := s.log + [Accepted(id, a.phase.nonce)],
               broadcasts := s.broadcasts + [Broadcast(id, a.phase.nonce, true)]))
        else None
      case SendFail(error, leaked) =>
        if a.phase.Sending? then
          var released := s.(lock := None, broadcasts :=
            if leaked then s.broadcasts + [Broadcast(id, a.phase.nonce, false)] else s.broadcasts);
          Some(match error
               case BelowMinimum => SetPhase(released, id, Refreshing)
               case NonceTooLow => SetPhase(released, id, WantsReset)
               case OtherError => Again(released, id))
        else None
      case Refreshed(raw) =>
        if a.phase.Refreshing?
        then Some(Again(s.(svc := s.svc.(gasPrice := UpdatedPrice(cfg, s.svc.gasPrice, raw))), id))
        else None
      case AcquireReset =>
        if a.phase.WantsReset? && s.lock == None
        then Some(SetPhase(s, id, Resetting).(lock := Some(id)))
        else None
      case ResetOk(count) =>
        if a.phase.Resetting?
        then Some(Again(s.(lock := None, svc := s.svc.(nonce := count), log := s.log + [Reset(count)]), id))
        else None
      case ResetFail =>
        if a.phase.Resetting? then Some(SetPhase(s.(lock := None), id, Finished)) else None
      case WatchSent =>
        if a.phase.Sent? then
          var entry := Cached(a.phase.nonce, s.svc.gasPrice, s.now, cfg.timeoutMs, Submitted);
          Some(SetPhase(s, id, Finished).(svc := Watch(s.svc, a.phase.hash, entry)))
        else None
  }

  /** Starts a dead letter for every given item at the current price. An item without cached data
      would throw here; `RelayerNonces.SnapshotsComplete` shows that none exists. */
  function StartTasks(s: Service, items: Items, hs: set<TxHash>): map<TxHash, Task> {
    map h | h in hs && h in items && items[h].Some? ::
      Task(1, InFlight(ReplacementPrice(items[h].value.gasPrice, s.gasPrice), s.gasPrice))
  }

  /** The `retry` decorator around `deadLetter` after an Err that does not bail. */
  function AgainTask(s: Service, c: Cached, t: Task): Task {
    if t.tries == MAX_TRIES then t.(attempt := Settled)
    else Task(t.tries + 1, InFlight(ReplacementPrice(c.gasPrice, s.gasPrice), s.gasPrice))
  }

  predicate AllSettled(tasks: map<TxHash, Task>) {
    forall h :: h in tasks ==> tasks[h].attempt.Settled?
  }

  predicate HasTask(pass: Pass, h: TxHash) {
    pass.Replacing? && h in pass.tasks && h in pass.items && pass.items[h].Some?
  }

  function NextTask(cfg: Config, s: Sys, p: nat, act: CheckAct, h: TxHash): Option<Sys>
    requires p in s.passes && HasTask(s.passes[p], h)
  {
    var pass := s.passes[p];
    var c, t := pass.items[h].value, pass.tasks[h];
    match act
    case ReplaceOk(_) =>
      if t.attempt.InFlight? then
        Some(s.(
          svc := Replace(s.svc, h, c, t.attempt.price, pass.reason, s.now),
          replacements := s.replacements + [ReplacementHash(c, t.attempt.price)],
          passes := s.passes[p := pass.(tasks := pass.tasks[h := t.(attempt := Settled)])]))
      else None
    case ReplaceFail(_, error) =>
      if t.attempt.InFlight? then
        Some(match error
             case NonceTooLow =>
               s.(svc := Unwatch(s.svc, h), tooLow := s.tooLow + {c.nonce},
                  passes := s.passes[p := pass.(tasks := pass.tasks[h := t.(attempt := Settled)])])
             case BelowMinimum =>
               s.(passes := s.passes[p := pass.(tasks := pass.tasks[h := t.(attempt := Repricing)])])
             case OtherError =>
               s.(passes := s.passes[p := pass.(tasks := pass.tasks[h := AgainTask(s.svc, c, t)])]))
      else None
    case Repriced(_, raw) =>
      if t.attempt.Repricing? then
        var svc := s.svc.(gasPrice := UpdatedPrice(cfg, s.svc.gasPrice, raw));
        Some(s.(svc := svc, passes := s.passes[p := pass.(tasks := pass.tasks[h := AgainTask(svc, c, t)])]))
      else None
    case _ => None
  }

  function NextCheck(cfg: Config, s: Sys, p: nat, act: CheckAct): Option<Sys> {
    if act.Start? then
      if p in s.passes then None
      else Some(s.(passes := s.passes[p := Fetching(Snapshot(s.svc))]))
    else if p !in s.passes then None
    else
      var pass := s.passes[p];
      match act
      case Summaries(found) =>
        if pass.Fetching? && found <= pass.items.Keys
        then Some(s.(passes := s.passes[p :=
               Classified(pass.items, found, LowItems(pass.items, found, s.svc.gasPrice))]))
        else None
      case Judge =>
        if pass.Classified?
        then Some(s.(passes := s.passes[p :=
               Replacing(pass.items, pass.mined, ExpiredItems(pass.items, pass.mined, s.now),
                         GasTooLow, StartTasks(s.svc, pass.items, pass.low))]))
        else None
      case NextStage =>
        if pass.Replacing? && AllSettled(pass.tasks)
        then Some(s.(passes := s.passes[p :=
               if pass.reason.GasTooLow?
               then pass.(reason := Expired, tasks := StartTasks(s.svc, pass.items, pass.expired))
               else Confirming(pass.items, pass.mined)]))
        else None
      case Confirm(receipts) =>
        if pass.Confirming? && receipts <= pass.mined
        then Some(s.(svc := UnwatchAll(s.svc, receipts),
                     finalised := s.finalised + (set h | h in receipts :: h.nonce),
                     passes := s.passes - {p}))
        else None
      case Abort =>
        if pass.Replacing? then None else Some(s.(passes := s.passes - {p}))
      case ReplaceOk(h) => if HasTask(pass, h) then NextTask(cfg, s, p, act, h) else None
      case ReplaceFail(h, _) => if HasTask(pass, h) then NextTask(cfg, s, p, act, h) else None
      case Repriced(h, _) => if HasTask(pass, h) then NextTask(cfg, s, p, act, h) else None
  }

  function Next(cfg: Config, s: Sys, step: Step): Option<Sys> {
    match step
    case Submit(id, act) => NextSubmit(cfg, s, id, act)
    case Check(p, act) => NextCheck(cfg, s, p, act)
    case GasTick(raw) => Some(s.(svc := s.svc.(gasPrice := UpdatedPrice(cfg, s.svc.gasPrice, raw))))
    case Clock(ms) => Some(s.(now := s.now + ms))
  }

  /** The state after a run, or None when some step was not possible. */
  function Exec(cfg: Config, s: Sys, steps: seq<Step>): Option<Sys> {
    if steps == [] then Some(s)
    else
      var before := Exec(cfg, s, steps[..|steps| - 1]);
      if before.None? then None else Next(cfg, before.value, steps[|steps| - 1])
  }
}
