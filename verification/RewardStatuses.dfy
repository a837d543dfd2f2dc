/** What the stored state of a reward says about what happened to it, over every run whatsoever: leaked
    relayer errors, rollbacks, late first sends and stale watchers included. */
module RewardStatuses {
  import opened Common
  import opened RewardEntity
  import opened RewardSender
  import opened RewardSafety
  import opened RewardExclusive

  /** The step is a relayer call for the invite that is answered with an Err. */
  predicate ErrFor(step: Step, id: nat, isRetry: bool) {
    if isRetry then step.RetryRelay? && step.id == id && step.reply.RelayErr?
    else step.FirstRelay? && step.id == id && step.reply.RelayErr?
  }

  ghost predicate HadErr(steps: seq<Step>, id: nat, isRetry: bool) {
    exists i :: 0 <= i < |steps| && ErrFor(steps[i], id, isRetry)
  }

  ghost predicate Succeeded(s: Sys, h: Hash) {
    h in s.receipts && s.receipts[h]
  }

  /** A transfer of the first send, and one of a retry. */
  ghost predicate SentFirst(s: Sys, id: nat, h: Hash) {
    (id, h) in s.sent && (id, h) !in s.resent
  }

  ghost predicate SentAgain(s: Sys, id: nat, h: Hash) {
    (id, h) in s.sent && (id, h) in s.resent
  }

  /** What each state stands for. */
  ghost predicate StatusTrue(steps: seq<Step>, s: Sys, id: nat, row: Row) {
    && (row.rewardTxHash.Some? ==> (id, row.rewardTxHash.value) in s.sent)
    && match row.state
       case Created => row.rewardTxHash.None?
       case Submitted => row.rewardTxHash.Some?
       case Completed => exists h :: (id, h) in s.sent && Succeeded(s, h)
       case Failed => HadErr(steps, id, false) || exists h :: SentFirst(s, id, h) && Reverted(s, h)
       case DeadLettered => HadErr(steps, id, true) || exists h :: SentAgain(s, id, h) && Reverted(s, h)
  }

  ghost predicate FirstTrue(steps: seq<Step>, s: Sys, id: nat, first: First) {
    && (first.GotHash? ==> SentFirst(s, id, first.hash))
    && (first.GotErr? ==> HadErr(steps, id, false))
  }

  ghost predicate LockTrue(steps: seq<Step>, s: Sys, id: nat, lock: Lock) {
    && id in s.rows
    && (lock.task.Looking? ==> lock.task.seen == s.rows[id].rewardTxHash)
    && (lock.task.Confirmed? ==> s.rows[id].rewardTxHash.Some? && Succeeded(s, s.rows[id].rewardTxHash.value))
    && (lock.task.Resent? ==> SentAgain(s, id, lock.task.hash))
    && (lock.task.ResendErr? ==> HadErr(steps, id, true))
    && (lock.write.Some? ==> StatusTrue(steps, s, id, lock.write.value))
  }

  /** A watched hash was sent, by a retry exactly when a failure is final. */
  ghost predicate WatchTrue(s: Sys, w: WatchedInvite) {
    if w.markAsDeadLetterIfFailed then SentAgain(s, w.inviteId, w.txHash) else SentFirst(s, w.inviteId, w.txHash)
  }

  ghost predicate RowsTrue(steps: seq<Step>, s: Sys) {
    && (forall id :: id in s.rows ==> StatusTrue(steps, s, id, s.rows[id]))
    && (forall id :: id in s.first ==> FirstTrue(steps, s, id, s.first[id]))
  }

  ghost predicate LocksTrue(steps: seq<Step>, s: Sys) {
    forall id :: id in s.locks ==> LockTrue(steps, s, id, s.locks[id])
  }

  ghost predicate WatchesTrue(s: Sys) {
    && (forall w :: w in s.watched ==> WatchTrue(s, w))
    && (forall v :: v in s.verdicts ==>
          WatchTrue(s, v.watch) && v.watch.txHash in s.receipts && s.receipts[v.watch.txHash] == v.success)
  }

  ghost predicate StatusInv(steps: seq<Step>, s: Sys) {
    RowsTrue(steps, s) && LocksTrue(steps, s) && WatchesTrue(s) && s.resent <= s.sent
  }

  // ----- Truths last

  /** Nothing that was sent, answered or mined is undone, and what is sent is new. */
  ghost predicate Grows(before: seq<Step>, s: Sys, after: seq<Step>, t: Sys) {
    && s.sent <= t.sent && s.resent <= t.resent && t.resent <= t.sent
    && (forall p :: p in s.sent && p in t.resent ==> p in s.resent)
    && (forall h :: h in s.receipts ==> h in t.receipts && t.receipts[h] == s.receipts[h])
    && (forall id, isRetry :: HadErr(before, id, isRetry) ==> HadErr(after, id, isRetry))
  }

  lemma StepGrows(steps: seq<Step>, s: Sys, step: Step)
    requires s.resent <= s.sent && Next(s, step).Some?
    ensures Grows(steps, s, steps + [step], Next(s, step).value)
  {
    SentGrows(s, step);
    var more := steps + [step];
    forall id, isRetry | HadErr(steps, id, isRetry)
      ensures HadErr(more, id, isRetry)
    {
      var i :| 0 <= i < |steps| && ErrFor(steps[i], id, isRetry);
      assert ErrFor(more[i], id, isRetry);
    }
  }

  lemma StatusLasts(before: seq<Step>, s: Sys, after: seq<Step>, t: Sys, id: nat, row: Row)
    requires StatusTrue(before, s, id, row) && Grows(before, s, after, t)
    ensures StatusTrue(after, t, id, row)
  {
    match row.state
    case Completed =>
      var h :| (id, h) in s.sent && Succeeded(s, h);
      assert (id, h) in t.sent && Succeeded(t, h);
    case Failed =>
      if !HadErr(before, id, false) {
        var h :| SentFirst(s, id, h) && Reverted(s, h);
        assert SentFirst(t, id, h) && Reverted(t, h);
      }
    case DeadLettered =>
      if !HadErr(before, id, true) {
        var h :| SentAgain(s, id, h) && Reverted(s, h);
        assert SentAgain(t, id, h) && Reverted(t, h);
      }
    case _ =>
  }

  /** Everything that is as it was before stays true. */
  lemma Frame(before: seq<Step>, s: Sys, after: seq<Step>, t: Sys)
    requires StatusInv(before, s) && Grows(before, s, after, t)
    ensures forall id, row :: StatusTrue(before, s, id, row) ==> StatusTrue(after, t, id, row)
    ensures forall id :: id in s.first ==> FirstTrue(after, t, id, s.first[id])
    ensures forall w :: w in s.watched ==> WatchTrue(t, w)
    ensures forall v :: v in s.verdicts ==>
      WatchTrue(t, v.watch) && v.watch.txHash in t.receipts && t.receipts[v.watch.txHash] == v.success
    ensures forall id :: id in s.locks && id in t.rows && t.rows[id] == s.rows[id] ==>
      LockTrue(after, t, id, s.locks[id])
  {
    forall id, row | StatusTrue(before, s, id, row)
      ensures StatusTrue(after, t, id, row)
    {
      StatusLasts(before, s, after, t, id, row);
    }
  }

  // ----- Every step keeps the invariant

  lemma ErrHappened(steps: seq<Step>, step: Step, id: nat, isRetry: bool)
    requires ErrFor(step, id, isRetry)
    ensures HadErr(steps + [step], id, isRetry)
  {
    assert (steps + [step])[|steps|] == step;
  }

  lemma FirstKeepsRows(steps: seq<Step>, s: Sys, step: Step)
    requires step.Create? || step.FirstRelay? || step.FirstWrite?
    requires StatusInv(steps, s) && NextFirst(s, step).Some?
    ensures RowsTrue(steps + [step], NextFirst(s, step).value)
  {
    var t := NextFirst(s, step).value;
    StepGrows(steps, s, step);
    Frame(steps, s, steps + [step], t);
    if ErrFor(step, step.id, false) {
      ErrHappened(steps, step, step.id, false);
    }
    if step.FirstWrite? {
      assert FirstTrue(steps + [step], t, step.id, s.first[step.id]);
    }
  }

  lemma FirstKeepsRest(steps: seq<Step>, s: Sys, step: Step)
    requires step.Create? || step.FirstRelay? || step.FirstWrite?
    requires StatusInv(steps, s) && NextFirst(s, step).Some?
    ensures LocksTrue(steps + [step], NextFirst(s, step).value) && WatchesTrue(NextFirst(s, step).value)
  {
    var t := NextFirst(s, step).value;
    StepGrows(steps, s, step);
    Frame(steps, s, steps + [step], t);
    if step.FirstWrite? {
      assert FirstTrue(steps + [step], t, step.id, s.first[step.id]);
    }
  }

  /** The lock that a retry step moves on. */
  lemma RetryOwnLock(steps: seq<Step>, s: Sys, step: Step)
    requires step.Look? || step.RetryRelay? || step.RetryWrite?
    requires StatusInv(steps, s) && NextRetry(s, step).Some?
    ensures var t := NextRetry(s, step).value;
      step.id in t.locks && LockTrue(steps + [step], t, step.id, t.locks[step.id])
  {
    var t := NextRetry(s, step).value;
    StepGrows(steps, s, step);
    Frame(steps, s, steps + [step], t);
    if ErrFor(step, step.id, true) {
      ErrHappened(steps, step, step.id, true);
    }
    assert LockTrue(steps + [step], t, step.id, s.locks[step.id]);
  }

  lemma RetryKeepsLocks(steps: seq<Step>, s: Sys, step: Step)
    requires step.Look? || step.RetryRelay? || step.RetryWrite?
    requires StatusInv(steps, s) && NextRetry(s, step).Some?
    ensures LocksTrue(steps + [step], NextRetry(s, step).value)
  {
    RetryShape(s, step);
    StepGrows(steps, s, step);
    Frame(steps, s, steps + [step], NextRetry(s, step).value);
    RetryOwnLock(steps, s, step);
  }

  lemma RetryKeepsRest(steps: seq<Step>, s: Sys, step: Step)
    requires step.Look? || step.RetryRelay? || step.RetryWrite?
    requires StatusInv(steps, s) && NextRetry(s, step).Some?
    ensures RowsTrue(steps + [step], NextRetry(s, step).value) && WatchesTrue(NextRetry(s, step).value)
  {
    var t := NextRetry(s, step).value;
    RetryShape(s, step);
    StepGrows(steps, s, step);
    Frame(steps, s, steps + [step], t);
    assert LockTrue(steps + [step], t, step.id, s.locks[step.id]);
  }

  lemma TxnKeepsRows(steps: seq<Step>, s: Sys, step: Step)
    requires step.LockRows? || step.Commit? || step.Rollback?
    requires StatusInv(steps, s) && NextTxn(s, step).Some?
    ensures RowsTrue(steps + [step], NextTxn(s, step).value)
  {
    StepGrows(steps, s, step);
    Frame(steps, s, steps + [step], NextTxn(s, step).value);
  }

  lemma TxnKeepsRest(steps: seq<Step>, s: Sys, step: Step)
    requires step.LockRows? || step.Commit? || step.Rollback?
    requires StatusInv(steps, s) && NextTxn(s, step).Some?
    ensures LocksTrue(steps + [step], NextTxn(s, step).value) && WatchesTrue(NextTxn(s, step).value)
  {
    StepGrows(steps, s, step);
    Frame(steps, s, steps + [step], NextTxn(s, step).value);
  }

  lemma OtherKeepsRows(steps: seq<Step>, s: Sys, step: Step)
    requires step.Observe? || step.WatchWrite? || step.Mine? || step.Clock?
    requires StatusInv(steps, s) && Next(s, step).Some?
    ensures RowsTrue(steps + [step], Next(s, step).value)
  {
    var t := Next(s, step).value;
    StepGrows(steps, s, step);
    Frame(steps, s, steps + [step], t);
    if step.WatchWrite? {
      assert WatchTrue(t, step.verdict.watch);
    }
  }

  lemma OtherKeepsRest(steps: seq<Step>, s: Sys, step: Step)
    requires step.Observe? || step.WatchWrite? || step.Mine? || step.Clock?
    requires StatusInv(steps, s) && Next(s, step).Some?
    ensures LocksTrue(steps + [step], Next(s, step).value) && WatchesTrue(Next(s, step).value)
  {
    StepGrows(steps, s, step);
    Frame(steps, s, steps + [step], Next(s, step).value);
  }

  lemma StepKeepsStatus(steps: seq<Step>, s: Sys, step: Step)
    requires StatusInv(steps, s) && Next(s, step).Some?
    ensures StatusInv(steps + [step], Next(s, step).value)
  {
    StepGrows(steps, s, step);
    if step.Create? || step.FirstRelay? || step.FirstWrite? {
      FirstKeepsRows(steps, s, step);
      FirstKeepsRest(steps, s, step);
    } else if step.Look? || step.RetryRelay? || step.RetryWrite? {
      RetryKeepsLocks(steps, s, step);
      RetryKeepsRest(steps, s, step);
    } else if step.LockRows? || step.Commit? || step.Rollback? {
      TxnKeepsRows(steps, s, step);
      TxnKeepsRest(steps, s, step);
    } else {
      OtherKeepsRows(steps, s, step);
      OtherKeepsRest(steps, s, step);
    }
  }

  lemma {:induction false} RunKeepsStatus(now: int, steps: seq<Step>)
    requires Exec(Init(now), steps).Some?
    ensures StatusInv(steps, Exec(Init(now), steps).value)
  {
    if steps == [] {
    } else {
      var front, last := steps[..|steps| - 1], steps[|steps| - 1];
      var s := Exec(Init(now), front).value;
      RunKeepsStatus(now, front);
      assert front + [last] == steps;
      StepKeepsStatus(front, s, last);
    }
  }

  /** In every run the stored state of a reward is true: a Created row records nothing, a Submitted row
      records a hash that was sent, a Completed row was paid, a Failed row had its first send refused
      or reverted, and a DeadLettered row a retry; whatever is recorded was sent for that invite. */
  lemma StatusTellsTruth(now: int, steps: seq<Step>, id: nat)
    requires Exec(Init(now), steps).Some? && id in Exec(Init(now), steps).value.rows
    ensures var s := Exec(Init(now), steps).value;
      StatusTrue(steps, s, id, s.rows[id])
  {
    RunKeepsStatus(now, steps);
  }
}
