/** When a paid row keeps its Completed state, and when a row that lost it gets it back. */
module RewardRepair {
  import opened Common
  import opened RewardEntity
  import opened RewardSender
  import opened RewardSafety
  import opened RewardRetries
  import opened RewardRuns

  ghost predicate CompletedRow(s: Sys, id: nat) {
    id in s.rows && s.rows[id].state == Completed
  }

  /** The recorded transfer of the row has succeeded. */
  ghost predicate Paid(s: Sys, id: nat) {
    && id in s.rows && s.rows[id].rewardTxHash.Some?
    && s.rows[id].rewardTxHash.value in s.receipts && s.receipts[s.rows[id].rewardTxHash.value]
  }

  /** A watcher writes that one of the invite's transfers failed. */
  predicate FailureWrite(step: Step, id: nat) {
    step.WatchWrite? && step.verdict.watch.inviteId == id && !step.verdict.success
  }

  // ----- Keeping Completed

  lemma CompletedIsFree(s: Sys, id: nat)
    requires Inv(s) && RetryInv(s) && CompletedRow(s, id)
    ensures id !in s.locks && id in s.first && s.first[id].Settled? && Paid(s, id)
  {
  }

  /** What a row that nobody has locked and whose first send is over can undergo. */
  lemma FreeRowStays(s: Sys, step: Step, id: nat)
    requires Next(s, step).Some? && id in s.rows && id !in s.locks && id in s.first && s.first[id].Settled?
    ensures var t := Next(s, step).value;
      && id in t.rows && id in t.first && t.first[id].Settled?
      && (t.rows[id] == s.rows[id] || (step.WatchWrite? && step.verdict.watch.inviteId == id))
      && (id in t.locks ==> step.LockRows? && Retryable(s.rows[id], s.now))
  {
  }

  /** A step takes a row out of Completed exactly when it writes a failed verdict for that invite. */
  lemma LosesCompletedExactly(s: Sys, step: Step, id: nat)
    requires Inv(s) && RetryInv(s) && CompletedRow(s, id) && Next(s, step).Some?
    ensures !CompletedRow(Next(s, step).value, id) <==> FailureWrite(step, id)
  {
    CompletedIsFree(s, id);
    FreeRowStays(s, step, id);
  }

  /** The row is Completed after every prefix of the run. */
  ghost predicate StaysCompleted(s: Sys, steps: seq<Step>, id: nat) {
    && Exec(s, steps).Some? && CompletedRow(Exec(s, steps).value, id)
    && (steps == [] || StaysCompleted(s, steps[..|steps| - 1], id))
  }

  predicate NoFailureWrite(steps: seq<Step>, id: nat) {
    forall i :: 0 <= i < |steps| ==> !FailureWrite(steps[i], id)
  }

  lemma {:induction false} RunStaysCompleted(s: Sys, steps: seq<Step>, id: nat)
    requires Inv(s) && RetryInv(s) && CompletedRow(s, id) && GoodRun(s, steps)
    ensures StaysCompleted(s, steps, id) <==> NoFailureWrite(steps, id)
  {
    if steps == [] {
    } else {
      var front, last := steps[..|steps| - 1], steps[|steps| - 1];
      RunStaysCompleted(s, front, id);
      assert steps == front + [last];
      if StaysCompleted(s, front, id) {
        RunKeepsRetries(s, front);
        LosesCompletedExactly(Exec(s, front).value, last, id);
      }
    }
  }

  /** Once Completed, a row stays Completed over any further run exactly when that run writes no failed
      verdict for the invite. */
  lemma StaysCompletedExactly(now: int, steps: seq<Step>, more: seq<Step>, id: nat)
    requires GoodRun(Init(now), steps) && CompletedRow(Exec(Init(now), steps).value, id)
    requires GoodRun(Exec(Init(now), steps).value, more)
    ensures StaysCompleted(Exec(Init(now), steps).value, more, id) <==> NoFailureWrite(more, id)
  {
    RunKeepsRetries(Init(now), steps);
    RunStaysCompleted(Exec(Init(now), steps).value, more, id);
  }

  /** A failed verdict on a Completed row is always about an earlier transfer than the recorded one, and
      a retry has sent for the invite. */
  lemma FailureIsStale(s: Sys, v: Verdict, id: nat)
    requires Inv(s) && RetryInv(s) && CompletedRow(s, id) && v in s.verdicts && FailureWrite(WatchWrite(v), id)
    ensures (id, v.watch.txHash) in s.sent && Reverted(s, v.watch.txHash)
    ensures s.rows[id].rewardTxHash != Some(v.watch.txHash)
    ensures s.rows[id].createdAt <= s.now - RETRY_AGE_MS
  {
    CompletedIsFree(s, id);
    assert InviteOk(s, id) && WatchOk(s, v.watch) && InviteRetries(s, id);
    var h, g := s.rows[id].rewardTxHash.value, v.watch.txHash;
    assert (id, h) in s.sent && (id, g) in s.sent && h != g;
    assert (id, h) in s.resent || (id, g) in s.resent;
  }

  // ----- Getting Completed back

  /** A watcher that is still going to write something else than DeadLettered. */
  predicate Repairs(s: Sys, id: nat, w: WatchedInvite) {
    && w.inviteId == id
    && (!w.markAsDeadLetterIfFailed || (w.txHash in s.receipts && s.receipts[w.txHash]))
  }

  ghost predicate RepairerLeft(s: Sys, id: nat) {
    || (exists w :: w in s.watched && Repairs(s, id, w))
    || (exists v :: v in s.verdicts && Repairs(s, id, v.watch))
  }

  ghost predicate Repairable(s: Sys, id: nat) {
    exists t :: GoodFrom(s, t) && CompletedRow(t, id)
  }

  /** A DeadLettered row for which no repairing watcher is left is out of everybody's reach. */
  ghost predicate Lost(s: Sys, id: nat) {
    && Inv(s) && id in s.rows && s.rows[id].state == DeadLettered && id !in s.locks
    && id in s.first && s.first[id].Settled?
    && (forall h :: (id, h) in s.sent ==> h in s.receipts)
    && !RepairerLeft(s, id)
  }

  lemma LostWrites(s: Sys, v: Verdict, id: nat)
    requires Lost(s, id) && v.watch.inviteId == id && NextWatch(s, WatchWrite(v)).Some?
    ensures NextWatch(s, WatchWrite(v)).value.rows[id] == s.rows[id]
  {
  }

  /** No watcher for the invite is added, nor a transfer, and receipts stay. */
  ghost predicate NoNews(s: Sys, t: Sys, id: nat) {
    && (forall w :: w in t.watched && w.inviteId == id ==> w in s.watched)
    && (forall v :: v in t.verdicts && v.watch.inviteId == id ==> v in s.verdicts || v.watch in s.watched)
    && (forall h :: (id, h) in t.sent ==> (id, h) in s.sent)
    && (forall h :: h in s.receipts ==> h in t.receipts && t.receipts[h] == s.receipts[h])
  }

  lemma RetryBringsNoNews(s: Sys, step: Step, id: nat)
    requires step.Look? || step.RetryRelay? || step.RetryWrite?
    requires NextRetry(s, step).Some? && id !in s.locks
    ensures NoNews(s, NextRetry(s, step).value, id)
  {
  }

  lemma FirstBringsNoNews(s: Sys, step: Step, id: nat)
    requires step.Create? || step.FirstRelay? || step.FirstWrite?
    requires NextFirst(s, step).Some? && id in s.rows && id in s.first && s.first[id].Settled?
    ensures NoNews(s, NextFirst(s, step).value, id)
  {
  }

  lemma WatchersStay(s: Sys, step: Step, id: nat)
    requires Lost(s, id) && Next(s, step).Some?
    ensures NoNews(s, Next(s, step).value, id)
  {
    if step.Create? || step.FirstRelay? || step.FirstWrite? {
      FirstBringsNoNews(s, step, id);
    } else if step.Look? || step.RetryRelay? || step.RetryWrite? {
      RetryBringsNoNews(s, step, id);
    }
  }

  lemma StillNoRepairer(s: Sys, step: Step, id: nat)
    requires Lost(s, id) && Next(s, step).Some?
    ensures !RepairerLeft(Next(s, step).value, id)
  {
    var t := Next(s, step).value;
    WatchersStay(s, step, id);
    forall w | w in s.watched && w.inviteId == id
      ensures !Repairs(t, id, w)
    {
      assert WatchOk(s, w) && !Repairs(s, id, w);
    }
    forall v | v in s.verdicts && v.watch.inviteId == id
      ensures !Repairs(t, id, v.watch)
    {
      assert WatchOk(s, v.watch) && !Repairs(s, id, v.watch);
    }
  }

  lemma LostStaysLost(s: Sys, step: Step, id: nat)
    requires Lost(s, id) && Timely(s) && HonestStep(step) && Next(s, step).Some?
    ensures Lost(Next(s, step).value, id)
  {
    StepKeepsInv(s, step);
    FreeRowStays(s, step, id);
    WatchersStay(s, step, id);
    StillNoRepairer(s, step, id);
    if step.WatchWrite? && step.verdict.watch.inviteId == id {
      LostWrites(s, step.verdict, id);
    }
  }

  lemma {:induction false} LostForever(s: Sys, steps: seq<Step>, id: nat)
    requires Lost(s, id) && GoodRun(s, steps)
    ensures Lost(Exec(s, steps).value, id)
  {
    if steps == [] {
    } else {
      LostForever(s, steps[..|steps| - 1], id);
      LostStaysLost(Exec(s, steps[..|steps| - 1]).value, steps[|steps| - 1], id);
    }
  }

  lemma {:induction false} UpperBound(xs: set<nat>) returns (bound: nat)
    ensures forall x :: x in xs ==> x < bound
    decreases |xs|
  {
    if xs == {} {
      bound := 0;
    } else {
      var x :| x in xs;
      bound := UpperBound(xs - {x});
      assert forall y :: y in xs ==> y == x || y in xs - {x};
      if bound <= x {
        bound := x + 1;
      }
    }
  }

  lemma FailedIsRepaired(s0: Sys, s: Sys, id: nat)
    requires GoodFrom(s0, s) && Paid(s, id) && id !in s.locks && Retryable(s.rows[id], s.now)
    ensures exists t :: GoodFrom(s0, t) && CompletedRow(t, id)
  {
    var owners := set i | i in s.locks :: s.locks[i].owner;
    var instance := UpperBound(owners);
    assert forall i :: i in s.locks ==> s.locks[i].owner in owners;
    GoodConfirm(s0, s, instance, id);
    assert CompletedRow(s.(rows := s.rows[id := s.rows[id].(state := Completed)]), id);
  }

  /** A verdict that a repairing watcher writes settles the row or makes it retryable again. */
  lemma WriteRepairs(s0: Sys, s: Sys, v: Verdict, id: nat)
    requires GoodFrom(s0, s) && Inv(s) && Paid(s, id) && id !in s.locks && v in s.verdicts && Repairs(s, id, v.watch)
    requires s.rows[id].createdAt <= s.now - RETRY_AGE_MS
    ensures exists t :: GoodFrom(s0, t) && CompletedRow(t, id)
  {
    var t := Next(s, WatchWrite(v)).value;
    assert Timely(t) by { assert Timely(s); }
    var u := GoodExtend(s0, s, WatchWrite(v));
    if v.success {
      assert CompletedRow(u, id);
    } else {
      FailedIsRepaired(s0, u, id);
    }
  }

  lemma WatchRepairs(s0: Sys, s: Sys, w: WatchedInvite, id: nat)
    requires GoodFrom(s0, s) && Inv(s) && Paid(s, id) && id !in s.locks && w in s.watched && Repairs(s, id, w)
    requires w.txHash in s.receipts && s.rows[id].createdAt <= s.now - RETRY_AGE_MS
    ensures exists t :: GoodFrom(s0, t) && CompletedRow(t, id)
  {
    var u := GoodExtend(s0, s, Observe(w));
    StepKeepsInv(s, Observe(w));
    WriteRepairs(s0, u, Verdict(w, s.receipts[w.txHash]), id);
  }

  lemma RepairerRepairs(s: Sys, id: nat)
    requires Inv(s) && Timely(s) && Paid(s, id) && id !in s.locks && RepairerLeft(s, id)
    requires s.rows[id].createdAt <= s.now - RETRY_AGE_MS
    requires forall h :: (id, h) in s.sent ==> h in s.receipts
    ensures Repairable(s, id)
  {
    GoodStart(s);
    if w :| w in s.watched && Repairs(s, id, w) {
      assert WatchOk(s, w);
      WatchRepairs(s, s, w, id);
    } else {
      var v :| v in s.verdicts && Repairs(s, id, v.watch);
      WriteRepairs(s, s, v, id);
    }
  }

  lemma LostIsNotRepairable(s: Sys, id: nat)
    requires Lost(s, id)
    ensures !Repairable(s, id)
  {
    if t :| GoodFrom(s, t) && CompletedRow(t, id) {
      var steps :| GoodRun(s, steps) && Exec(s, steps) == Some(t);
      LostForever(s, steps, id);
    }
  }

  lemma PaidHasAllReceipts(s: Sys, id: nat)
    requires Inv(s) && RetryInv(s) && CompletedRow(s, id)
    ensures forall h :: (id, h) in s.sent ==> h in s.receipts
  {
    CompletedIsFree(s, id);
    assert InviteOk(s, id);
    forall h | (id, h) in s.sent
      ensures h in s.receipts
    {
      assert Alive(s, id, h) ==> Current(s, id) == Some(h);
    }
  }

  lemma OverwriteFacts(s: Sys, v: Verdict, id: nat)
    requires Inv(s) && RetryInv(s) && Timely(s) && CompletedRow(s, id) && FailureWrite(WatchWrite(v), id)
    requires Next(s, WatchWrite(v)).Some?
    ensures var t := Next(s, WatchWrite(v)).value;
      && Inv(t) && Timely(t) && Paid(t, id) && v.watch.txHash != t.rows[id].rewardTxHash.value
      && id !in t.locks && id in t.first && t.first[id].Settled?
      && t.rows[id].state == (if v.watch.markAsDeadLetterIfFailed then DeadLettered else Failed)
      && t.rows[id].createdAt <= t.now - RETRY_AGE_MS
      && forall h :: (id, h) in t.sent ==> h in t.receipts
  {
    CompletedIsFree(s, id);
    FailureIsStale(s, v, id);
    PaidHasAllReceipts(s, id);
    StepKeepsInv(s, WatchWrite(v));
  }

  lemma OverwriteExactly(t: Sys, id: nat)
    requires Inv(t) && Timely(t) && Paid(t, id) && id !in t.locks && id in t.first && t.first[id].Settled?
    requires t.rows[id].state == DeadLettered || t.rows[id].state == Failed
    requires t.rows[id].createdAt <= t.now - RETRY_AGE_MS
    requires forall h :: (id, h) in t.sent ==> h in t.receipts
    ensures Repairable(t, id) <==> t.rows[id].state == Failed || RepairerLeft(t, id)
  {
    if t.rows[id].state == Failed {
      GoodStart(t);
      FailedIsRepaired(t, t, id);
    } else if RepairerLeft(t, id) {
      RepairerRepairs(t, id);
    } else {
      LostIsNotRepairable(t, id);
    }
  }

  /** A paid row that a failed verdict overwrites can become Completed again exactly when the verdict's
      watcher did not mark it DeadLettered, or another watcher of the invite is left that will not.
      A retry can pick it up in the first case only. */
  lemma OverwrittenIsRepairableExactly(now: int, steps: seq<Step>, v: Verdict, id: nat)
    requires GoodRun(Init(now), steps) && FailureWrite(WatchWrite(v), id)
    requires var s := Exec(Init(now), steps).value; CompletedRow(s, id) && Next(s, WatchWrite(v)).Some?
    ensures var s := Exec(Init(now), steps).value;
      var t := Next(s, WatchWrite(v)).value;
      && Paid(t, id) && v.watch.txHash != t.rows[id].rewardTxHash.value
      && (Repairable(t, id) <==> !v.watch.markAsDeadLetterIfFailed || RepairerLeft(t, id))
      && (Retryable(t.rows[id], t.now) <==> !v.watch.markAsDeadLetterIfFailed)
  {
    RunKeepsRetries(Init(now), steps);
    var s := Exec(Init(now), steps).value;
    OverwriteFacts(s, v, id);
    OverwriteExactly(Next(s, WatchWrite(v)).value, id);
  }
}
