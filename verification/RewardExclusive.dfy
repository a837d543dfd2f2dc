/** Exactly when two transfers of an invite may both succeed, over every run whatsoever: leaked relayer
    errors, rollbacks and late first sends included. */
module RewardExclusive {
  import opened Common
  import opened RewardEntity
  import opened RewardSender
  import opened RewardSafety

  /** At most one hash sent for the invite has succeeded or may still succeed. */
  ghost predicate Exclusive(s: Sys, id: nat) {
    forall h, g :: Alive(s, id, h) && Alive(s, id, g) ==> h == g
  }

  /** A transfer goes out for the invite while an earlier one lives of which the code does not know: for
      a retry one that is not recorded on the row, for a first send any. */
  ghost predicate BlindSend(s: Sys, step: Step, id: nat) {
    || (step.FirstRelay? && step.id == id && Broadcast(step.reply).Some? && exists h :: Alive(s, id, h))
    || (step.RetryRelay? && step.id == id && Broadcast(step.reply).Some? && id in s.rows
        && exists h :: Alive(s, id, h) && s.rows[id].rewardTxHash != Some(h))
  }

  ghost predicate NoBlindSend(s: Sys, steps: seq<Step>, id: nat) {
    steps == [] ||
    var front := steps[..|steps| - 1];
    && NoBlindSend(s, front, id)
    && (Exec(s, front).Some? ==> !BlindSend(Exec(s, front).value, steps[|steps| - 1], id))
  }

  /** Exclusive after every prefix of the run. */
  ghost predicate StaysExclusive(s: Sys, steps: seq<Step>, id: nat) {
    && (Exec(s, steps).Some? ==> Exclusive(Exec(s, steps).value, id))
    && (steps == [] || StaysExclusive(s, steps[..|steps| - 1], id))
  }

  /** While a retry waits for the relayer, the recorded hash of its row is missing or has reverted. */
  ghost predicate RetryInformed(s: Sys, id: nat) {
    id in s.locks && id in s.rows ==>
      && (s.locks[id].task.Looking? ==> s.locks[id].task.seen == s.rows[id].rewardTxHash)
      && (s.locks[id].task.Resending? && s.rows[id].rewardTxHash.Some? ==>
            Reverted(s, s.rows[id].rewardTxHash.value))
  }

  ghost predicate InformedInv(s: Sys) {
    && s.locks.Keys <= s.rows.Keys
    && (forall id :: id in s.locks ==> RetryInformed(s, id))
    && (forall h :: h in s.receipts ==> !FreshHash(s, h))
  }

  lemma ReceiptsOfSent(s: Sys, step: Step)
    requires InformedInv(s) && Next(s, step).Some?
    ensures forall h :: h in Next(s, step).value.receipts ==> !FreshHash(Next(s, step).value, h)
    ensures forall h :: Reverted(s, h) ==> Reverted(Next(s, step).value, h)
    ensures s.sent <= Next(s, step).value.sent
  {
  }

  /** What is sent, and for whom. */
  lemma SentGrows(s: Sys, step: Step)
    requires Next(s, step).Some?
    ensures var t := Next(s, step).value;
      if (step.FirstRelay? || step.RetryRelay?) && Broadcast(step.reply).Some?
      then t.sent == s.sent + {(step.id, Broadcast(step.reply).value)} && t.receipts == s.receipts
           && FreshHash(s, Broadcast(step.reply).value)
      else t.sent == s.sent
    ensures forall h :: h in s.receipts ==>
      h in Next(s, step).value.receipts && Next(s, step).value.receipts[h] == s.receipts[h]
  {
  }

  lemma RetryKeepsInformed(s: Sys, step: Step)
    requires step.Look? || step.RetryRelay? || step.RetryWrite?
    requires InformedInv(s) && NextRetry(s, step).Some?
    ensures var t := NextRetry(s, step).value;
      t.locks.Keys <= t.rows.Keys && forall id :: id in t.locks ==> RetryInformed(t, id)
  {
  }

  lemma LocksKeepInformed(s: Sys, step: Step)
    requires InformedInv(s) && Next(s, step).Some?
    ensures var t := Next(s, step).value;
      t.locks.Keys <= t.rows.Keys && forall id :: id in t.locks ==> RetryInformed(t, id)
  {
    if step.Look? || step.RetryRelay? || step.RetryWrite? {
      RetryKeepsInformed(s, step);
    } else {
      ReceiptsOfSent(s, step);
    }
  }

  lemma {:induction false} RunKeepsInformed(now: int, steps: seq<Step>)
    requires Exec(Init(now), steps).Some?
    ensures InformedInv(Exec(Init(now), steps).value)
  {
    if steps == [] {
    } else {
      var front := steps[..|steps| - 1];
      RunKeepsInformed(now, front);
      LocksKeepInformed(Exec(Init(now), front).value, steps[|steps| - 1]);
      ReceiptsOfSent(Exec(Init(now), front).value, steps[|steps| - 1]);
    }
  }

  lemma BroadcasterIsReady(s: Sys, step: Step)
    requires Next(s, step).Some?
    ensures step.RetryRelay? ==> step.id in s.locks && step.id in s.rows && s.locks[step.id].task.Resending?
  {
  }

  /** A step breaks exclusiveness exactly when it sends blindly. */
  lemma StepExclusiveExactly(s: Sys, step: Step, id: nat)
    requires InformedInv(s) && Exclusive(s, id) && Next(s, step).Some?
    ensures Exclusive(Next(s, step).value, id) <==> !BlindSend(s, step, id)
  {
    var t := Next(s, step).value;
    SentGrows(s, step);
    BroadcasterIsReady(s, step);
    if (step.FirstRelay? || step.RetryRelay?) && Broadcast(step.reply).Some? && step.id == id {
      var g := Broadcast(step.reply).value;
      assert Alive(t, id, g) && !Alive(s, id, g);
      assert forall h :: Alive(t, id, h) <==> Alive(s, id, h) || h == g;
      if step.RetryRelay? {
        assert RetryInformed(s, id);
      }
    } else {
      assert forall h :: Alive(t, id, h) ==> Alive(s, id, h);
    }
  }

  /** In every run, no two transfers of an invite can ever both succeed exactly when none of them is sent
      while one lives that the sender does not know: the check of the recorded hash before a retry misses
      precisely the transfers that are not recorded. */
  lemma {:induction false} ExclusiveExactly(now: int, steps: seq<Step>, id: nat)
    requires Exec(Init(now), steps).Some?
    ensures StaysExclusive(Init(now), steps, id) <==> NoBlindSend(Init(now), steps, id)
  {
    if steps == [] {
    } else {
      var front := steps[..|steps| - 1];
      ExclusiveExactly(now, front, id);
      RunKeepsInformed(now, front);
      if StaysExclusive(Init(now), front, id) {
        StepExclusiveExactly(Exec(Init(now), front).value, steps[|steps| - 1], id);
      }
    }
  }
}
