/** The `retry` decorator around submissions and dead letters, over every run: how often each is sent,
    what happens after each kind of rejection, and exactly when it is given up. */
module RelayerRetries {
  import opened Common
  import opened GasPricing
  import opened RelayerService
  import opened RelayerSystem
  import opened RelayerNonces

  // ----- Submissions

  datatype Event =
    | Acknowledged
    | Rejected
    | RejectedAs(error: SendError)
    | PriceFetched
    | CounterReset
    | ResetFailed
    | NowWatched

  predicate IsEvent(step: Step, id: nat, e: Event) {
    && step.Submit? && step.id == id
    && match e
       case Acknowledged => step.submitAct.SendOk?
       case Rejected => step.submitAct.SendFail?
       case RejectedAs(error) => step.submitAct.SendFail? && step.submitAct.error == error
       case PriceFetched => step.submitAct.Refreshed?
       case CounterReset => step.submitAct.ResetOk?
       case ResetFailed => step.submitAct.ResetFail?
       case NowWatched => step.submitAct.WatchSent?
  }

  /** How often something happened to a submission. */
  function Times(steps: seq<Step>, id: nat, e: Event): nat {
    if steps == [] then 0
    else Times(steps[..|steps| - 1], id, e) + if IsEvent(steps[|steps| - 1], id, e) then 1 else 0
  }

  /** Everything that happened to a submission is accounted for. It is sent at most three times, and at
      most once successfully; each price rejection is followed by one fetch of the price and each nonce
      rejection by one reset, and the next send waits for them; it ends exactly when it is watched, when
      its reset fails, or when the third rejection has been dealt with. */
  ghost predicate Accounted(steps: seq<Step>, id: nat, phase: SubmitPhase) {
    var sent := Times(steps, id, Acknowledged);
    var rejected := Times(steps, id, Rejected);
    && sent <= 1 && sent + rejected <= 3
    && sent == Times(steps, id, NowWatched) + (if phase.Sent? then 1 else 0)
    && Times(steps, id, RejectedAs(BelowMinimum))
       == Times(steps, id, PriceFetched) + (if phase.Refreshing? then 1 else 0)
    && Times(steps, id, RejectedAs(NonceTooLow))
       == Times(steps, id, CounterReset) + Times(steps, id, ResetFailed)
          + (if phase.WantsReset? || phase.Resetting? then 1 else 0)
    && (phase.Finished? <==>
          || Times(steps, id, NowWatched) == 1
          || Times(steps, id, ResetFailed) == 1
          || (rejected == 3 && !phase.Refreshing? && !phase.WantsReset? && !phase.Resetting?))
  }

  /** The counter of the decorator: one more than the rejections that have been dealt with. */
  ghost predicate TriesOk(steps: seq<Step>, id: nat, a: Submitter) {
    && 1 <= a.tries <= 3
    && (a.phase.Waiting? || a.phase.Sending? || a.phase.Sent? ==> Times(steps, id, Rejected) == a.tries - 1)
    && (a.phase.Refreshing? || a.phase.WantsReset? || a.phase.Resetting? ==>
          Times(steps, id, Rejected) == a.tries && Times(steps, id, Acknowledged) == 0)
    && (a.phase.Waiting? || a.phase.Sending? ==> Times(steps, id, Acknowledged) == 0)
    && (!a.phase.Finished? ==> Times(steps, id, ResetFailed) == 0 && Times(steps, id, NowWatched) == 0)
  }

  ghost predicate SubmissionInv(steps: seq<Step>, s: Sys, id: nat) {
    if id in s.submitters
    then TriesOk(steps, id, s.submitters[id]) && Accounted(steps, id, s.submitters[id].phase)
    else forall e :: Times(steps, id, e) == 0
  }

  lemma TimesAppend(steps: seq<Step>, step: Step, id: nat, e: Event)
    ensures Times(steps + [step], id, e) == Times(steps, id, e) + if IsEvent(step, id, e) then 1 else 0
  {
    assert (steps + [step])[..|steps|] == steps;
  }

  /** Steps that do not belong to the submission. */
  lemma OtherSubmission(cfg: Config, s: Sys, step: Step, id: nat)
    requires Next(cfg, s, step).Some? && !(step.Submit? && step.id == id)
    ensures var t := Next(cfg, s, step).value;
      (id in t.submitters <==> id in s.submitters) && (id in s.submitters ==> t.submitters[id] == s.submitters[id])
  {
  }

  ghost predicate Counted(steps: seq<Step>, step: Step, id: nat) {
    forall e :: Times(steps + [step], id, e) == Times(steps, id, e) + if IsEvent(step, id, e) then 1 else 0
  }

  lemma OwnStart(cfg: Config, steps: seq<Step>, s: Sys, id: nat, act: SubmitAct)
    requires SubmissionInv(steps, s, id) && NextSubmit(cfg, s, id, act).Some?
    requires Counted(steps, Submit(id, act), id)
    requires act.Begin? || act.Acquire?
    ensures SubmissionInv(steps + [Submit(id, act)], NextSubmit(cfg, s, id, act).value, id)
  {
  }

  lemma OwnSend(cfg: Config, steps: seq<Step>, s: Sys, id: nat, act: SubmitAct)
    requires SubmissionInv(steps, s, id) && NextSubmit(cfg, s, id, act).Some?
    requires Counted(steps, Submit(id, act), id)
    requires act.SendOk? || act.SendFail?
    ensures SubmissionInv(steps + [Submit(id, act)], NextSubmit(cfg, s, id, act).value, id)
  {
  }

  lemma OwnRest(cfg: Config, steps: seq<Step>, s: Sys, id: nat, act: SubmitAct)
    requires SubmissionInv(steps, s, id) && NextSubmit(cfg, s, id, act).Some?
    requires Counted(steps, Submit(id, act), id)
    requires !(act.Begin? || act.Acquire? || act.SendOk? || act.SendFail?)
    ensures SubmissionInv(steps + [Submit(id, act)], NextSubmit(cfg, s, id, act).value, id)
  {
  }

  lemma OwnStep(cfg: Config, steps: seq<Step>, s: Sys, id: nat, act: SubmitAct)
    requires SubmissionInv(steps, s, id) && NextSubmit(cfg, s, id, act).Some?
    requires Counted(steps, Submit(id, act), id)
    ensures SubmissionInv(steps + [Submit(id, act)], NextSubmit(cfg, s, id, act).value, id)
  {
    if act.Begin? || act.Acquire? {
      OwnStart(cfg, steps, s, id, act);
    } else if act.SendOk? || act.SendFail? {
      OwnSend(cfg, steps, s, id, act);
    } else {
      OwnRest(cfg, steps, s, id, act);
    }
  }

  lemma {:induction false} RunKeepsSubmission(cfg: Config, raw: Option<real>, count: int, pool: seq<TxHash>,
                                             now: int, steps: seq<Step>, id: nat)
    requires Exec(cfg, Boot(cfg, raw, count, pool, now), steps).Some?
    ensures SubmissionInv(steps, Exec(cfg, Boot(cfg, raw, count, pool, now), steps).value, id)
  {
    if steps == [] {
    } else {
      var front, last := steps[..|steps| - 1], steps[|steps| - 1];
      var s := Exec(cfg, Boot(cfg, raw, count, pool, now), front).value;
      RunKeepsSubmission(cfg, raw, count, pool, now, front, id);
      assert steps == front + [last];
      forall e
        ensures Times(steps, id, e) == Times(front, id, e) + if IsEvent(last, id, e) then 1 else 0
      {
        TimesAppend(front, last, id, e);
      }
      if last.Submit? && last.id == id {
        OwnStep(cfg, front, s, id, last.submitAct);
      } else {
        OtherSubmission(cfg, s, last, id);
      }
    }
  }

  /** The account of every submission, over every run. */
  lemma SubmissionsAccounted(cfg: Config, raw: Option<real>, count: int, pool: seq<TxHash>, now: int,
                             steps: seq<Step>, id: nat)
    requires Exec(cfg, Boot(cfg, raw, count, pool, now), steps).Some?
    requires id in Exec(cfg, Boot(cfg, raw, count, pool, now), steps).value.submitters
    ensures Accounted(steps, id, Exec(cfg, Boot(cfg, raw, count, pool, now), steps).value.submitters[id].phase)
  {
    RunKeepsSubmission(cfg, raw, count, pool, now, steps, id);
  }

  // ----- Dead letters

  datatype LetterEvent = LetterAccepted | LetterRejected | LetterRejectedAs(reason: SendError) | LetterRepriced

  predicate IsLetterEvent(step: Step, p: nat, h: TxHash, e: LetterEvent) {
    && step.Check? && step.pass == p
    && match e
       case LetterAccepted => step.checkAct == ReplaceOk(h)
       case LetterRejected => step.checkAct.ReplaceFail? && step.checkAct.hash == h
       case LetterRejectedAs(reason) => step.checkAct == ReplaceFail(h, reason)
       case LetterRepriced => step.checkAct.Repriced? && step.checkAct.hash == h
  }

  /** The step begins one of the two stages of a pass, with new dead letters. */
  predicate BeginsStage(step: Step, p: nat) {
    step.Check? && step.pass == p && (step.checkAct.Judge? || step.checkAct.NextStage?)
  }

  /** How often something happened to a dead letter of the current stage. */
  function TimesInStage(steps: seq<Step>, p: nat, h: TxHash, e: LetterEvent): nat {
    if steps == [] || BeginsStage(steps[|steps| - 1], p) then 0
    else
      TimesInStage(steps[..|steps| - 1], p, h, e) + if IsLetterEvent(steps[|steps| - 1], p, h, e) then 1 else 0
  }

  /** A dead letter is done when it has been accepted, when the node knows its nonce as used, on which the
      decorator bails, or when the third rejection has been dealt with. */
  ghost predicate LetterDone(steps: seq<Step>, p: nat, h: TxHash) {
    || TimesInStage(steps, p, h, LetterAccepted) == 1
    || TimesInStage(steps, p, h, LetterRejectedAs(NonceTooLow)) == 1
    || (TimesInStage(steps, p, h, LetterRejected) == 3
        && TimesInStage(steps, p, h, LetterRejectedAs(BelowMinimum)) == TimesInStage(steps, p, h, LetterRepriced))
  }

  ghost predicate LetterAccounted(steps: seq<Step>, p: nat, h: TxHash, t: Task) {
    var sent := TimesInStage(steps, p, h, LetterAccepted);
    var rejected := TimesInStage(steps, p, h, LetterRejected);
    && sent <= 1 && sent + rejected <= 3
    && TimesInStage(steps, p, h, LetterRejectedAs(BelowMinimum))
       == TimesInStage(steps, p, h, LetterRepriced) + (if t.attempt.Repricing? then 1 else 0)
    && (t.attempt.Settled? <==> LetterDone(steps, p, h))
  }

  ghost predicate LetterInv(steps: seq<Step>, p: nat, h: TxHash, t: Task) {
    && LetterAccounted(steps, p, h, t)
    && 1 <= t.tries <= 3
    && (!t.attempt.Settled? ==>
          TimesInStage(steps, p, h, LetterAccepted) == 0
          && TimesInStage(steps, p, h, LetterRejectedAs(NonceTooLow)) == 0)
    && (t.attempt.InFlight? ==> TimesInStage(steps, p, h, LetterRejected) == t.tries - 1)
    && (t.attempt.Repricing? ==> TimesInStage(steps, p, h, LetterRejected) == t.tries)
  }

  ghost predicate StageInv(steps: seq<Step>, s: Sys, p: nat) {
    p in s.passes && s.passes[p].Replacing? ==>
      forall h :: h in s.passes[p].tasks ==>
        HasTask(s.passes[p], h) && LetterInv(steps, p, h, s.passes[p].tasks[h])
  }

  lemma TimesInStageAppend(steps: seq<Step>, step: Step, p: nat, h: TxHash, e: LetterEvent)
    ensures TimesInStage(steps + [step], p, h, e) ==
      if BeginsStage(step, p) then 0
      else TimesInStage(steps, p, h, e) + if IsLetterEvent(step, p, h, e) then 1 else 0
  {
    assert (steps + [step])[..|steps|] == steps;
  }

  /** New dead letters start with nothing counted. */
  lemma NewStage(steps: seq<Step>, step: Step, p: nat, svc: Service, items: Items, hs: set<TxHash>)
    requires BeginsStage(step, p)
    ensures forall h :: h in StartTasks(svc, items, hs) ==>
      h in items && items[h].Some? && LetterInv(steps + [step], p, h, StartTasks(svc, items, hs)[h])
  {
    forall h, e
      ensures TimesInStage(steps + [step], p, h, e) == 0
    {
      TimesInStageAppend(steps, step, p, h, e);
    }
  }

  lemma LetterStep(cfg: Config, steps: seq<Step>, s: Sys, p: nat, act: CheckAct, h: TxHash)
    requires p in s.passes && HasTask(s.passes[p], h) && IsTaskAct(act) && act.hash == h
    requires LetterInv(steps, p, h, s.passes[p].tasks[h]) && NextTask(cfg, s, p, act, h).Some?
    ensures var t := NextTask(cfg, s, p, act, h).value;
      && p in t.passes && HasTask(t.passes[p], h) && LetterInv(steps + [Check(p, act)], p, h, t.passes[p].tasks[h])
      && t.passes[p].tasks == s.passes[p].tasks[h := t.passes[p].tasks[h]]
  {
    forall e
      ensures TimesInStage(steps + [Check(p, act)], p, h, e)
           == TimesInStage(steps, p, h, e) + if IsLetterEvent(Check(p, act), p, h, e) then 1 else 0
    {
      TimesInStageAppend(steps, Check(p, act), p, h, e);
    }
  }

  /** A step that is no event of the dead letter and begins no stage of its pass. */
  lemma LetterFrame(steps: seq<Step>, step: Step, p: nat, h: TxHash, t: Task)
    requires LetterInv(steps, p, h, t) && !BeginsStage(step, p)
    requires !(step.Check? && step.pass == p && IsTaskAct(step.checkAct) && step.checkAct.hash == h)
    ensures LetterInv(steps + [step], p, h, t)
  {
    forall e
      ensures TimesInStage(steps + [step], p, h, e) == TimesInStage(steps, p, h, e)
    {
      TimesInStageAppend(steps, step, p, h, e);
    }
  }

  lemma StepKeepsStage(cfg: Config, steps: seq<Step>, s: Sys, step: Step, p: nat)
    requires Next(cfg, s, step).Some? && StageInv(steps, s, p)
    ensures StageInv(steps + [step], Next(cfg, s, step).value, p)
  {
    var t := Next(cfg, s, step).value;
    if step.Check? && step.pass == p {
      OwnPassStep(cfg, steps, s, p, step.checkAct);
    } else if p in t.passes && t.passes[p].Replacing? {
      forall h | h in t.passes[p].tasks
        ensures HasTask(t.passes[p], h) && LetterInv(steps + [step], p, h, t.passes[p].tasks[h])
      {
        LetterFrame(steps, step, p, h, s.passes[p].tasks[h]);
      }
    }
  }

  lemma OwnPassStep(cfg: Config, steps: seq<Step>, s: Sys, p: nat, act: CheckAct)
    requires NextCheck(cfg, s, p, act).Some? && StageInv(steps, s, p)
    ensures StageInv(steps + [Check(p, act)], NextCheck(cfg, s, p, act).value, p)
  {
    var step, t := Check(p, act), NextCheck(cfg, s, p, act).value;
    if IsTaskAct(act) {
      var h := act.hash;
      LetterStep(cfg, steps, s, p, act, h);
      forall g | g in t.passes[p].tasks && g != h
        ensures LetterInv(steps + [step], p, g, t.passes[p].tasks[g])
      {
        LetterFrame(steps, step, p, g, s.passes[p].tasks[g]);
      }
    } else if act.Judge? {
      NewStage(steps, step, p, s.svc, s.passes[p].items, s.passes[p].low);
    } else if act.NextStage? {
      NewStage(steps, step, p, s.svc, s.passes[p].items, s.passes[p].expired);
    }
  }

  lemma {:induction false} RunKeepsStage(cfg: Config, raw: Option<real>, count: int, pool: seq<TxHash>,
                                        now: int, steps: seq<Step>, p: nat)
    requires Exec(cfg, Boot(cfg, raw, count, pool, now), steps).Some?
    ensures StageInv(steps, Exec(cfg, Boot(cfg, raw, count, pool, now), steps).value, p)
  {
    if steps == [] {
    } else {
      var front, last := steps[..|steps| - 1], steps[|steps| - 1];
      RunKeepsStage(cfg, raw, count, pool, now, front, p);
      StepKeepsStage(cfg, front, Exec(cfg, Boot(cfg, raw, count, pool, now), front).value, last, p);
      assert steps == front + [last];
    }
  }

  /** Every dead letter of a running stage is accounted for, over every run: it is sent at most three times
      and accepted at most once, each price rejection is followed by one fetch of the price, and the pass
      goes on exactly when all of its dead letters are done. */
  lemma DeadLettersAccounted(cfg: Config, raw: Option<real>, count: int, pool: seq<TxHash>, now: int,
                             steps: seq<Step>, p: nat)
    requires Exec(cfg, Boot(cfg, raw, count, pool, now), steps).Some?
    requires var s := Exec(cfg, Boot(cfg, raw, count, pool, now), steps).value;
      p in s.passes && s.passes[p].Replacing?
    ensures var s := Exec(cfg, Boot(cfg, raw, count, pool, now), steps).value;
      var tasks := s.passes[p].tasks;
      && (forall h :: h in tasks ==> LetterAccounted(steps, p, h, tasks[h]))
      && (Next(cfg, s, Check(p, NextStage)).Some? <==> forall h :: h in tasks ==> LetterDone(steps, p, h))
  {
    RunKeepsStage(cfg, raw, count, pool, now, steps, p);
    var s := Exec(cfg, Boot(cfg, raw, count, pool, now), steps).value;
    var tasks := s.passes[p].tasks;
    assert forall h :: h in tasks ==> (tasks[h].attempt.Settled? <==> LetterDone(steps, p, h));
  }
}
