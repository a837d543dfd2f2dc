/** At most one transfer per invite can ever succeed, over every interleaving of N instances, under
    three hypotheses: a relayer Err means nothing was broadcast, retry transactions commit, and a
    first send ends before its row is old enough to be retried. */
module RewardSafety {
  import opened Common
  import opened RewardEntity
  import opened RewardSender

  predicate Leaks(reply: Reply) {
    reply.RelayErr? && reply.leaked.Some?
  }

  /** An Err means that nothing was broadcast, and no transaction is rolled back. */
  predicate HonestStep(step: Step) {
    && (step.FirstRelay? || step.RetryRelay? ==> !Leaks(step.reply))
    && !step.Rollback?
  }

  /** Every first send that is still running belongs to a row younger than the retry age. */
  ghost predicate Timely(s: Sys) {
    forall id :: id in s.first && id in s.rows && !s.first[id].Settled? ==> s.now - s.rows[id].createdAt < RETRY_AGE_MS
  }

  /** All steps are honest and all states on the way are timely. */
  ghost predicate GoodRun(s: Sys, steps: seq<Step>) {
    && Exec(s, steps).Some? && Timely(Exec(s, steps).value)
    && (steps == [] || (GoodRun(s, steps[..|steps| - 1]) && HonestStep(steps[|steps| - 1])))
  }

  /** A state that good steps lead to. */
  ghost predicate GoodFrom(s: Sys, t: Sys) {
    exists steps :: GoodRun(s, steps) && Exec(s, steps) == Some(t)
  }

  lemma GoodStart(s: Sys)
    requires Timely(s)
    ensures GoodFrom(s, s)
  {
    assert GoodRun(s, []) && Exec(s, []) == Some(s);
  }

  lemma GoodExtend(s: Sys, t: Sys, step: Step) returns (u: Sys)
    requires GoodFrom(s, t) && HonestStep(step) && Next(t, step).Some? && Timely(Next(t, step).value)
    ensures u == Next(t, step).value && GoodFrom(s, u)
  {
    u := Next(t, step).value;
    var steps :| GoodRun(s, steps) && Exec(s, steps) == Some(t);
    var more := steps + [step];
    assert more[..|steps|] == steps;
    assert GoodRun(s, more) && Exec(s, more) == Some(u);
  }

  predicate Reverted(s: Sys, h: Hash) {
    h in s.receipts && !s.receipts[h]
  }

  /** A hash sent for the invite whose transfer has succeeded or may still succeed. */
  ghost predicate Alive(s: Sys, id: nat, h: Hash) {
    (id, h) in s.sent && !Reverted(s, h)
  }

  ghost predicate OnlyAlive(s: Sys, id: nat, current: Option<Hash>) {
    forall h :: Alive(s, id, h) ==> current == Some(h)
  }

  /** The row as its lock holder sees it. */
  function Effective(s: Sys, id: nat): Row
    requires id in s.rows
  {
    if id in s.locks && s.locks[id].write.Some? then s.locks[id].write.value else s.rows[id]
  }

  /** The one hash that may still pay: the recorded one, or the one about to be recorded. */
  function Current(s: Sys, id: nat): Option<Hash>
    requires id in s.rows && id in s.first
  {
    if s.first[id].GotHash? then Some(s.first[id].hash)
    else if id in s.locks && s.locks[id].task.Resent? then Some(s.locks[id].task.hash)
    else if id in s.locks && (s.locks[id].task.Resending? || s.locks[id].task.ResendErr?) then None
    else Effective(s, id).rewardTxHash
  }

  ghost predicate RowOk(s: Sys, id: nat, row: Row) {
    && (row.rewardTxHash.Some? ==> (id, row.rewardTxHash.value) in s.sent)
    && (row.state == Completed ==>
          && row.rewardTxHash.Some?
          && row.rewardTxHash.value in s.receipts
          && s.receipts[row.rewardTxHash.value])
  }

  ghost predicate LockOk(s: Sys, id: nat, lock: Lock)
    requires id in s.rows
  {
    && (!lock.task.Over? ==> lock.write.None?)
    && (lock.task.Looking? ==> lock.task.seen == s.rows[id].rewardTxHash)
    && (lock.task.Confirmed? ==> RowOk(s, id, s.rows[id].(state := Completed)))
    && (lock.task.Resent? ==> (id, lock.task.hash) in s.sent)
    && (lock.write.Some? ==> RowOk(s, id, lock.write.value))
  }

  ghost predicate InviteOk(s: Sys, id: nat)
    requires id in s.rows
  {
    && id in s.first
    && RowOk(s, id, s.rows[id])
    && (!s.first[id].Settled? ==> id !in s.locks && s.rows[id].rewardTxHash.None?)
    && (s.first[id].GotHash? ==> (id, s.first[id].hash) in s.sent)
    && (id in s.locks ==> LockOk(s, id, s.locks[id]))
    && OnlyAlive(s, id, Current(s, id))
  }

  ghost predicate WatchOk(s: Sys, w: WatchedInvite) {
    && (w.inviteId, w.txHash) in s.sent
    && w.inviteId in s.first && s.first[w.inviteId].Settled?
  }

  ghost predicate Inv(s: Sys) {
    && (forall id :: id in s.rows ==> InviteOk(s, id))
    && s.first.Keys == s.rows.Keys
    && s.locks.Keys <= s.rows.Keys
    && (forall p :: p in s.sent ==> p.0 in s.rows)
    && (forall w :: w in s.watched ==> WatchOk(s, w))
    && (forall v :: v in s.verdicts ==>
          WatchOk(s, v.watch) && v.watch.txHash in s.receipts && s.receipts[v.watch.txHash] == v.success)
  }

  // ----- Every step keeps the invariant

  lemma RowFrame(s: Sys, t: Sys, id: nat, row: Row)
    requires RowOk(s, id, row) && s.sent <= t.sent
    requires forall h :: h in s.receipts ==> h in t.receipts && t.receipts[h] == s.receipts[h]
    ensures RowOk(t, id, row)
  {
    if row.state == Completed {
      var h := row.rewardTxHash.value;
      assert h in s.receipts;
    }
  }

  /** Invites that a step does not touch stay as they were. */
  lemma InviteFrame(s: Sys, t: Sys, id: nat)
    requires id in s.rows && id in t.rows && InviteOk(s, id)
    requires t.rows[id] == s.rows[id] && id in t.first && t.first[id] == s.first[id]
    requires id in t.locks <==> id in s.locks
    requires id in s.locks ==> t.locks[id] == s.locks[id]
    requires s.sent <= t.sent && (forall h :: (id, h) in t.sent ==> (id, h) in s.sent)
    requires forall h :: h in s.receipts ==> h in t.receipts && t.receipts[h] == s.receipts[h]
    ensures InviteOk(t, id)
  {
    assert forall h :: Alive(t, id, h) ==> Alive(s, id, h);
    RowFrame(s, t, id, s.rows[id]);
    if id in s.locks {
      var lock := s.locks[id];
      if lock.task.Confirmed? {
        RowFrame(s, t, id, s.rows[id].(state := Completed));
      }
      if lock.write.Some? {
        RowFrame(s, t, id, lock.write.value);
      }
    }
  }

  lemma CreateKeepsInvite(s: Sys, id: nat, invitee: string)
    requires Inv(s) && NextFirst(s, Create(id, invitee)).Some?
    ensures var t := NextFirst(s, Create(id, invitee)).value; id in t.rows ==> InviteOk(t, id)
  {
  }

  lemma FirstRelayKeepsInvite(s: Sys, id: nat, reply: Reply)
    requires Inv(s) && !Leaks(reply) && NextFirst(s, FirstRelay(id, reply)).Some?
    ensures InviteOk(NextFirst(s, FirstRelay(id, reply)).value, id)
  {
  }

  lemma FirstWriteKeepsInvite(s: Sys, id: nat, instance: nat)
    requires Inv(s) && NextFirst(s, FirstWrite(id, instance)).Some?
    ensures InviteOk(NextFirst(s, FirstWrite(id, instance)).value, id)
  {
  }

  lemma FirstKeepsOthers(s: Sys, step: Step)
    requires step.Create? || step.FirstRelay? || step.FirstWrite?
    requires Inv(s) && NextFirst(s, step).Some?
    ensures var t := NextFirst(s, step).value;
      && t.first.Keys == t.rows.Keys && t.locks.Keys <= t.rows.Keys
      && (forall p :: p in t.sent ==> p.0 in t.rows)
      && (forall id :: id in t.rows && id != step.id ==> InviteOk(t, id))
  {
    var t := NextFirst(s, step).value;
    forall id | id in t.rows && id != step.id
      ensures InviteOk(t, id)
    {
      InviteFrame(s, t, id);
    }
  }

  lemma FirstKeepsWatches(s: Sys, step: Step)
    requires step.Create? || step.FirstRelay? || step.FirstWrite?
    requires Inv(s) && NextFirst(s, step).Some?
    ensures var t := NextFirst(s, step).value;
      && (forall w :: w in t.watched ==> WatchOk(t, w))
      && (forall v :: v in t.verdicts ==>
            WatchOk(t, v.watch) && v.watch.txHash in t.receipts && t.receipts[v.watch.txHash] == v.success)
  {
  }

  lemma FirstKeepsInv(s: Sys, step: Step)
    requires step.Create? || step.FirstRelay? || step.FirstWrite?
    requires Inv(s) && HonestStep(step) && NextFirst(s, step).Some?
    ensures Inv(NextFirst(s, step).value)
  {
    match step {
      case Create(id, invitee) => CreateKeepsInvite(s, id, invitee);
      case FirstRelay(id, reply) => FirstRelayKeepsInvite(s, id, reply);
      case FirstWrite(id, instance) => FirstWriteKeepsInvite(s, id, instance);
    }
    FirstKeepsOthers(s, step);
    FirstKeepsWatches(s, step);
  }

  lemma LookKeepsInvite(s: Sys, id: nat)
    requires Inv(s) && NextRetry(s, Look(id)).Some?
    ensures InviteOk(NextRetry(s, Look(id)).value, id)
  {
  }

  lemma RetryRelayKeepsInvite(s: Sys, id: nat, reply: Reply)
    requires Inv(s) && !Leaks(reply) && NextRetry(s, RetryRelay(id, reply)).Some?
    ensures InviteOk(NextRetry(s, RetryRelay(id, reply)).value, id)
  {
  }

  lemma RetryWriteKeepsInvite(s: Sys, id: nat)
    requires Inv(s) && NextRetry(s, RetryWrite(id)).Some?
    ensures InviteOk(NextRetry(s, RetryWrite(id)).value, id)
  {
    var t := NextRetry(s, RetryWrite(id)).value;
    assert InviteOk(s, id);
    assert forall h :: Alive(t, id, h) ==> Alive(s, id, h);
  }

  lemma RetryKeepsInv(s: Sys, step: Step)
    requires step.Look? || step.RetryRelay? || step.RetryWrite?
    requires Inv(s) && HonestStep(step) && NextRetry(s, step).Some?
    ensures Inv(NextRetry(s, step).value)
  {
    var t := NextRetry(s, step).value;
    match step {
      case Look(id) => LookKeepsInvite(s, id);
      case RetryRelay(id, reply) => RetryRelayKeepsInvite(s, id, reply);
      case RetryWrite(id) => RetryWriteKeepsInvite(s, id);
    }
    RetryKeepsOthers(s, step);
    RetryKeepsWatches(s, step);
  }

  lemma RetryKeepsOthers(s: Sys, step: Step)
    requires step.Look? || step.RetryRelay? || step.RetryWrite?
    requires Inv(s) && NextRetry(s, step).Some?
    ensures var t := NextRetry(s, step).value;
      && t.rows == s.rows && t.first == s.first && t.locks.Keys == s.locks.Keys
      && (forall p :: p in t.sent ==> p.0 in t.rows)
      && (forall id :: id in t.rows && id != step.id ==> InviteOk(t, id))
  {
    var t := NextRetry(s, step).value;
    RetryShape(s, step);
    forall id | id in t.rows && id != step.id
      ensures InviteOk(t, id)
    {
      InviteFrame(s, t, id);
    }
  }

  lemma RetryKeepsWatches(s: Sys, step: Step)
    requires step.Look? || step.RetryRelay? || step.RetryWrite?
    requires Inv(s) && NextRetry(s, step).Some?
    ensures var t := NextRetry(s, step).value;
      && (forall w :: w in t.watched ==> WatchOk(t, w))
      && (forall v :: v in t.verdicts ==>
            WatchOk(t, v.watch) && v.watch.txHash in t.receipts && t.receipts[v.watch.txHash] == v.success)
  {
  }

  /** A row that is old enough to be locked has had its first send. */
  lemma LockKeepsInvite(s: Sys, instance: nat, ids: set<nat>, id: nat)
    requires Inv(s) && Timely(s) && NextTxn(s, LockRows(instance, ids)).Some? && id in ids
    ensures id in s.rows && InviteOk(NextTxn(s, LockRows(instance, ids)).value, id)
  {
    var t := NextTxn(s, LockRows(instance, ids)).value;
    assert InviteOk(s, id);
    assert s.first[id].Settled?;
    assert forall h :: Alive(t, id, h) ==> Alive(s, id, h);
  }

  lemma LockKeepsInv(s: Sys, instance: nat, ids: set<nat>)
    requires Inv(s) && Timely(s) && NextTxn(s, LockRows(instance, ids)).Some?
    ensures Inv(NextTxn(s, LockRows(instance, ids)).value)
  {
    var t := NextTxn(s, LockRows(instance, ids)).value;
    forall id | id in t.rows
      ensures InviteOk(t, id)
    {
      if id in ids {
        LockKeepsInvite(s, instance, ids, id);
      } else {
        InviteFrame(s, t, id);
      }
    }
  }

  lemma CommitKeepsInv(s: Sys, instance: nat)
    requires Inv(s) && NextTxn(s, Commit(instance)).Some?
    ensures Inv(NextTxn(s, Commit(instance)).value)
  {
    var t := NextTxn(s, Commit(instance)).value;
    forall id | id in t.rows
      ensures InviteOk(t, id)
    {
      assert InviteOk(s, id);
      if Owns(s, instance, id) {
        assert t.rows[id] == Effective(s, id);
        assert forall h :: Alive(t, id, h) ==> Alive(s, id, h);
      } else {
        InviteFrame(s, t, id);
      }
    }
  }

  lemma WatchKeepsInv(s: Sys, step: Step)
    requires step.Observe? || step.WatchWrite?
    requires Inv(s) && NextWatch(s, step).Some?
    ensures Inv(NextWatch(s, step).value)
  {
    var t := NextWatch(s, step).value;
    forall id | id in t.rows
      ensures InviteOk(t, id)
    {
      if step.WatchWrite? && id == step.verdict.watch.inviteId {
        assert InviteOk(s, id);
        assert forall h :: Alive(t, id, h) ==> Alive(s, id, h);
        if step.verdict.success {
          assert Alive(s, id, step.verdict.watch.txHash);
        }
      } else {
        InviteFrame(s, t, id);
      }
    }
  }

  lemma MineKeepsInv(s: Sys, h: Hash, success: bool)
    requires Inv(s) && Next(s, Mine(h, success)).Some?
    ensures Inv(Next(s, Mine(h, success)).value)
  {
    var t := Next(s, Mine(h, success)).value;
    forall id | id in t.rows
      ensures InviteOk(t, id)
    {
      InviteFrame(s, t, id);
    }
  }

  lemma StepKeepsInv(s: Sys, step: Step)
    requires Inv(s) && Timely(s) && HonestStep(step) && Next(s, step).Some?
    ensures Inv(Next(s, step).value)
  {
    if step.Create? || step.FirstRelay? || step.FirstWrite? {
      FirstKeepsInv(s, step);
    } else if step.Look? || step.RetryRelay? || step.RetryWrite? {
      RetryKeepsInv(s, step);
    } else if step.Observe? || step.WatchWrite? {
      WatchKeepsInv(s, step);
    } else if step.LockRows? {
      LockKeepsInv(s, step.instance, step.ids);
    } else if step.Commit? {
      CommitKeepsInv(s, step.instance);
    } else if step.Mine? {
      MineKeepsInv(s, step.hash, step.success);
    } else {
      var t := Next(s, step).value;
      forall id | id in t.rows
        ensures InviteOk(t, id)
      {
        InviteFrame(s, t, id);
      }
    }
  }

  lemma {:induction false} RunKeepsInv(s: Sys, steps: seq<Step>)
    requires Inv(s) && GoodRun(s, steps)
    ensures Inv(Exec(s, steps).value)
  {
    if steps == [] {
    } else {
      var front := steps[..|steps| - 1];
      RunKeepsInv(s, front);
      StepKeepsInv(Exec(s, front).value, steps[|steps| - 1]);
    }
  }

  // ----- Main results

  /** At most one transfer per invite can ever succeed: every hash ever sent for an invite, other
      than the recorded one or the one about to be recorded, has a reverted receipt. */
  lemma AtMostOneTransfer(now: int, steps: seq<Step>, id: nat, h: Hash, g: Hash)
    requires GoodRun(Init(now), steps)
    requires var s := Exec(Init(now), steps).value;
      (id, h) in s.sent && (id, g) in s.sent && h != g
    ensures var s := Exec(Init(now), steps).value;
      && id in s.rows && id in s.first
      && (Current(s, id) != Some(h) ==> Reverted(s, h))
      && (Reverted(s, h) || Reverted(s, g))
  {
    RunKeepsInv(Init(now), steps);
    var s := Exec(Init(now), steps).value;
    assert InviteOk(s, id);
    assert Alive(s, id, h) ==> Current(s, id) == Some(h);
    assert Alive(s, id, g) ==> Current(s, id) == Some(g);
  }

  /** A Completed row always has a successful receipt for its recorded hash. */
  lemma CompletedIsPaid(now: int, steps: seq<Step>, id: nat)
    requires GoodRun(Init(now), steps)
    requires var s := Exec(Init(now), steps).value;
      id in s.rows && s.rows[id].state == Completed
    ensures var s := Exec(Init(now), steps).value;
      && s.rows[id].rewardTxHash.Some?
      && s.rows[id].rewardTxHash.value in s.receipts
      && s.receipts[s.rows[id].rewardTxHash.value]
  {
    RunKeepsInv(Init(now), steps);
    assert InviteOk(Exec(Init(now), steps).value, id);
  }

  lemma PaidSendsNothing(s: Sys, step: Step, id: nat, h: Hash)
    requires Inv(s) && Next(s, step).Some? && (id, h) in s.sent && h in s.receipts && s.receipts[h]
    ensures forall g :: (id, g) in Next(s, step).value.sent ==> (id, g) in s.sent
  {
    assert InviteOk(s, id);
    assert Alive(s, id, h);
  }

  /** Once a transfer for an invite has succeeded, no later step of any instance sends again, even
      if a stale watcher has overwritten the state. */
  lemma NoSendAfterSuccess(now: int, steps: seq<Step>, step: Step, id: nat, h: Hash)
    requires GoodRun(Init(now), steps) && HonestStep(step)
    requires var s := Exec(Init(now), steps).value;
      (id, h) in s.sent && h in s.receipts && s.receipts[h] && Next(s, step).Some?
    ensures var s := Exec(Init(now), steps).value;
      forall g :: (id, g) in Next(s, step).value.sent ==> (id, g) in s.sent
  {
    RunKeepsInv(Init(now), steps);
    PaidSendsNothing(Exec(Init(now), steps).value, step, id, h);
  }
}
