/** What the reward sender's steps do to the stored rows, the watch list and the row locks, and what a retry
    has done with a row that it holds, over every run whatsoever. */
module RewardPasses {
  import opened Common
  import opened RewardEntity
  import opened RewardSender

  // ----- One step

  /** What becomes of a stored row. */
  ghost predicate RowAfter(s: Sys, step: Step, id: nat, row: Row)
    requires id in s.rows
  {
    match step
    case FirstWrite(i, _) =>
      if i != id then row == s.rows[id]
      else
        && i in s.first && row.invitee == s.rows[id].invitee && row.createdAt == s.rows[id].createdAt
        && (s.first[i].GotHash? ==> row.state == Submitted && row.rewardTxHash == Some(s.first[i].hash))
        && (s.first[i].GotErr? ==> row.state == Failed && row.rewardTxHash == s.rows[id].rewardTxHash)
    case Commit(instance) =>
      row == if id in s.locks && s.locks[id].owner == instance && s.locks[id].write.Some? then s.locks[id].write.value
             else s.rows[id]
    case WatchWrite(v) =>
      && row.invitee == s.rows[id].invitee && row.rewardTxHash == s.rows[id].rewardTxHash
      && row.createdAt == s.rows[id].createdAt
      && (v.watch.inviteId != id ==> row.state == s.rows[id].state)
      && (v.watch.inviteId == id && v.success ==> row.state == Completed)
      && (v.watch.inviteId == id && !v.success ==>
            row.state == if v.watch.markAsDeadLetterIfFailed then DeadLettered else Failed)
    case _ => row == s.rows[id]
  }

  predicate AddsRow(s: Sys, step: Step, id: nat) {
    step.Create? && step.id == id && forall j :: j in s.rows ==> s.rows[j].invitee != step.invitee
  }

  /** A hash comes under watch when the first send or the retry that sent it writes it to the row. */
  ghost predicate StartsWatch(s: Sys, step: Step, w: WatchedInvite) {
    match step
    case FirstWrite(id, instance) =>
      id in s.first && s.first[id].GotHash? && w == WatchedInvite(instance, id, s.first[id].hash, false)
    case RetryWrite(id) =>
      && id in s.locks && s.locks[id].task.Resent?
      && w == WatchedInvite(s.locks[id].owner, id, s.locks[id].task.hash, true)
    case _ => false
  }

  predicate EndsWatch(step: Step, w: WatchedInvite) {
    step.WatchWrite? && step.verdict.watch == w
  }

  predicate Releases(step: Step, owner: nat) {
    (step.Commit? && step.instance == owner) || (step.Rollback? && step.instance == owner)
  }

  predicate Takes(step: Step, owner: nat, id: nat) {
    step.LockRows? && step.instance == owner && id in step.ids
  }

  /** The rows after a step, from any state. A rollback changes none, and only a commit shows what a retry
      has written. */
  lemma RowsChangeExactly(s: Sys, step: Step)
    requires Next(s, step).Some?
    ensures var t := Next(s, step).value;
      && (forall id :: id in t.rows <==> id in s.rows || AddsRow(s, step, id))
      && (forall id :: id in t.rows && id !in s.rows ==> t.rows[id] == Row(step.invitee, Created, None, s.now))
      && (forall id :: id in s.rows ==> RowAfter(s, step, id, t.rows[id]))
  {
    if step.Look? || step.RetryRelay? || step.RetryWrite? {
      RetryShape(s, step);
    }
  }

  /** Where a first send stands: it waits for the relayer, then for its write, and is done when the relayer
      threw or the row is written. */
  lemma FirstSendsChangeExactly(s: Sys, step: Step)
    requires Next(s, step).Some?
    ensures var t := Next(s, step).value;
      && (forall id :: id in t.first <==> id in s.first || AddsRow(s, step, id))
      && (forall id :: id in t.first ==>
            if AddsRow(s, step, id) then t.first[id] == Relaying
            else if step.FirstRelay? && step.id == id then
              && (step.reply.RelayOk? ==> t.first[id] == GotHash(step.reply.hash))
              && (step.reply.RelayErr? ==> t.first[id] == GotErr)
              && (step.reply.RelayThrow? ==> t.first[id] == Settled)
            else if step.FirstWrite? && step.id == id then t.first[id] == Settled
            else t.first[id] == s.first[id])
  {
    if step.Look? || step.RetryRelay? || step.RetryWrite? {
      RetryShape(s, step);
    }
  }

  lemma WatchChangesExactly(s: Sys, step: Step)
    requires Next(s, step).Some?
    ensures var t := Next(s, step).value;
      forall w :: w in t.watched <==> StartsWatch(s, step, w) || (w in s.watched && !EndsWatch(step, w))
  {
  }

  lemma HoldersChangeExactly(s: Sys, step: Step)
    requires Next(s, step).Some?
    ensures var t := Next(s, step).value;
      forall id, owner ::
        id in t.locks && t.locks[id].owner == owner <==>
          Takes(step, owner, id) || (id in s.locks && s.locks[id].owner == owner && !Releases(step, owner))
  {
    if step.Look? || step.RetryRelay? || step.RetryWrite? {
      RetryShape(s, step);
    }
  }

  /** A retry can take rows exactly when its instance holds none and each is free, 30 minutes old and neither
      Completed nor DeadLettered. */
  lemma LocksExactly(s: Sys, instance: nat, ids: set<nat>)
    ensures Next(s, LockRows(instance, ids)).Some? <==>
      && (forall id :: id in s.locks ==> s.locks[id].owner != instance)
      && forall id :: id in ids ==> id in s.rows && id !in s.locks && OldAndOpen(s.rows[id], s.now)
  {
  }

  predicate OldAndOpen(row: Row, now: int) {
    row.state != Completed && row.state != DeadLettered && now - row.createdAt >= 1_800_000
  }

  // ----- What a retry has done with a row that it holds

  datatype Run = Run(now: int, steps: seq<Step>)

  ghost predicate StateAt(r: Run, k: nat, s: Sys) {
    k <= |r.steps| && Exec(Init(r.now), r.steps[..k]) == Some(s)
  }

  /** The owner has held the row since step k, which found it like this. */
  ghost predicate HeldSince(r: Run, k: nat, owner: nat, id: nat, row: Row) {
    && k < |r.steps| && Takes(r.steps[k], owner, id)
    && (forall j :: k < j < |r.steps| ==> !Releases(r.steps[j], owner))
    && exists s :: StateAt(r, k, s) && id in s.rows && s.rows[id] == row && OldAndOpen(row, s.now)
  }

  ghost predicate Finds(s: Sys, recorded: Option<Hash>, status: TxStatus) {
    match status
    case TxCompleted => recorded.Some? && recorded.value in s.receipts && s.receipts[recorded.value]
    case TxFailed => recorded.Some? ==> recorded.value in s.receipts && !s.receipts[recorded.value]
    case TxPending => recorded.Some? && recorded.value !in s.receipts
  }

  ghost predicate LookedAt(r: Run, k: nat, j: nat, s: Sys, id: nat, recorded: Option<Hash>, status: TxStatus) {
    k < j < |r.steps| && r.steps[j] == Look(id) && StateAt(r, j, s) && Finds(s, recorded, status)
  }

  ghost predicate Looked(r: Run, k: nat, id: nat, recorded: Option<Hash>, status: TxStatus) {
    exists j: nat, s :: LookedAt(r, k, j, s, id, recorded, status)
  }

  predicate IsRelay(step: Step, id: nat) {
    step.RetryRelay? && step.id == id
  }

  ghost predicate NoRelay(r: Run, k: nat, id: nat) {
    forall j :: k < j < |r.steps| ==> !IsRelay(r.steps[j], id)
  }

  /** The one relayer call since step k. */
  ghost predicate OnlyRelay(r: Run, k: nat, j: nat, id: nat, reply: Reply) {
    && k < j < |r.steps| && r.steps[j] == RetryRelay(id, reply)
    && forall i :: k < i < |r.steps| && i != j ==> !IsRelay(r.steps[i], id)
  }

  ghost predicate Relayed(r: Run, k: nat, id: nat, reply: Reply) {
    exists j: nat :: OnlyRelay(r, k, j, id, reply)
  }

  /** The retry has found no transfer or a reverted one, and has called the relayer once. */
  ghost predicate Resends(r: Run, k: nat, id: nat, row: Row, reply: Reply) {
    Looked(r, k, id, row.rewardTxHash, TxFailed) && Relayed(r, k, id, reply)
  }

  ghost predicate ResendRefused(r: Run, k: nat, id: nat, row: Row) {
    exists leaked :: Resends(r, k, id, row, RelayErr(leaked))
  }

  /** How far the retry is with the row, and what it has written. */
  ghost predicate Progress(r: Run, k: nat, id: nat, row: Row, lock: Lock) {
    && (!lock.task.Over? ==> lock.write.None?)
    && match lock.task
       case Looking(seen) => seen == row.rewardTxHash && NoRelay(r, k, id)
       case Confirmed => Looked(r, k, id, row.rewardTxHash, TxCompleted) && NoRelay(r, k, id)
       case Resending => Looked(r, k, id, row.rewardTxHash, TxFailed) && NoRelay(r, k, id)
       case Resent(h) => Resends(r, k, id, row, RelayOk(h))
       case ResendErr => ResendRefused(r, k, id, row)
       case Over =>
         if lock.write.Some? then Written(r, k, id, row, lock.write.value)
         else (Looked(r, k, id, row.rewardTxHash, TxPending) && NoRelay(r, k, id))
              || Resends(r, k, id, row, RelayThrow)
  }

  ghost predicate Written(r: Run, k: nat, id: nat, row: Row, write: Row) {
    && write.invitee == row.invitee && write.createdAt == row.createdAt
    && match write.state
       case Completed =>
         && write.rewardTxHash == row.rewardTxHash
         && Looked(r, k, id, row.rewardTxHash, TxCompleted) && NoRelay(r, k, id)
       case Submitted => write.rewardTxHash.Some? && Resends(r, k, id, row, RelayOk(write.rewardTxHash.value))
       case DeadLettered => write.rewardTxHash == row.rewardTxHash && ResendRefused(r, k, id, row)
       case _ => false
  }

  ghost predicate LockTells(r: Run, s: Sys, id: nat) {
    id in s.locks ==> id in s.rows && exists k: nat :: TellsFrom(r, k, id, s.rows[id], s.locks[id])
  }

  ghost predicate TellsFrom(r: Run, k: nat, id: nat, row: Row, lock: Lock) {
    HeldSince(r, k, lock.owner, id, row) && Progress(r, k, id, row, lock)
  }

  // ----- What lasts

  function Then(r: Run, step: Step): Run {
    r.(steps := r.steps + [step])
  }

  lemma StateLasts(r: Run, step: Step, k: nat, s: Sys)
    requires StateAt(r, k, s)
    ensures StateAt(Then(r, step), k, s)
  {
    assert Then(r, step).steps[..k] == r.steps[..k];
  }

  lemma HeldLasts(r: Run, step: Step, k: nat, owner: nat, id: nat, row: Row)
    requires HeldSince(r, k, owner, id, row) && !Releases(step, owner)
    ensures HeldSince(Then(r, step), k, owner, id, row)
  {
    var s :| StateAt(r, k, s) && id in s.rows && s.rows[id] == row && OldAndOpen(row, s.now);
    StateLasts(r, step, k, s);
  }

  lemma LookedLasts(r: Run, step: Step, k: nat, id: nat, recorded: Option<Hash>, status: TxStatus)
    requires Looked(r, k, id, recorded, status)
    ensures Looked(Then(r, step), k, id, recorded, status)
  {
    var j: nat, s :| LookedAt(r, k, j, s, id, recorded, status);
    StateLasts(r, step, j, s);
    assert LookedAt(Then(r, step), k, j, s, id, recorded, status);
  }

  lemma NoRelayLasts(r: Run, step: Step, k: nat, id: nat)
    requires NoRelay(r, k, id) && !IsRelay(step, id)
    ensures NoRelay(Then(r, step), k, id)
  {
  }

  lemma ResendsLasts(r: Run, step: Step, k: nat, id: nat, row: Row, reply: Reply)
    requires Resends(r, k, id, row, reply) && !IsRelay(step, id)
    ensures Resends(Then(r, step), k, id, row, reply)
  {
    LookedLasts(r, step, k, id, row.rewardTxHash, TxFailed);
    var j: nat :| OnlyRelay(r, k, j, id, reply);
    assert OnlyRelay(Then(r, step), k, j, id, reply);
  }

  lemma ProgressLasts(r: Run, step: Step, k: nat, id: nat, row: Row, lock: Lock)
    requires Progress(r, k, id, row, lock) && !IsRelay(step, id)
    ensures Progress(Then(r, step), k, id, row, lock)
  {
    forall status | Looked(r, k, id, row.rewardTxHash, status)
      ensures Looked(Then(r, step), k, id, row.rewardTxHash, status)
    {
      LookedLasts(r, step, k, id, row.rewardTxHash, status);
    }
    forall reply | Resends(r, k, id, row, reply)
      ensures Resends(Then(r, step), k, id, row, reply)
    {
      ResendsLasts(r, step, k, id, row, reply);
    }
  }

  // ----- Every step

  lemma TakeTells(r: Run, s: Sys, step: Step, id: nat)
    requires StateAt(r, |r.steps|, s) && step.LockRows? && id in step.ids && Next(s, step).Some?
    ensures LockTells(Then(r, step), Next(s, step).value, id)
  {
    var q, t, k := Then(r, step), Next(s, step).value, |r.steps|;
    StateLasts(r, step, k, s);
    assert HeldSince(q, k, step.instance, id, s.rows[id]);
    assert TellsFrom(q, k, id, s.rows[id], t.locks[id]);
  }

  /** The retry looks up the recorded transfer. */
  lemma LookTells(r: Run, s: Sys, id: nat, k: nat)
    requires StateAt(r, |r.steps|, s) && NextRetry(s, Look(id)).Some?
    requires id in s.locks && id in s.rows && k < |r.steps| && Progress(r, k, id, s.rows[id], s.locks[id])
    ensures Progress(Then(r, Look(id)), k, id, s.rows[id], NextRetry(s, Look(id)).value.locks[id])
  {
    var q := Then(r, Look(id));
    var recorded := s.rows[id].rewardTxHash;
    StateLasts(r, Look(id), |r.steps|, s);
    NoRelayLasts(r, Look(id), k, id);
    forall status | Finds(s, recorded, status)
      ensures Looked(q, k, id, recorded, status)
    {
      assert LookedAt(q, k, |r.steps|, s, id, recorded, status);
    }
  }

  lemma RelayTells(r: Run, s: Sys, id: nat, reply: Reply, k: nat)
    requires NextRetry(s, RetryRelay(id, reply)).Some?
    requires id in s.locks && id in s.rows && k < |r.steps| && Progress(r, k, id, s.rows[id], s.locks[id])
    ensures Progress(Then(r, RetryRelay(id, reply)), k, id, s.rows[id],
                     NextRetry(s, RetryRelay(id, reply)).value.locks[id])
  {
    var step := RetryRelay(id, reply);
    LookedLasts(r, step, k, id, s.rows[id].rewardTxHash, TxFailed);
    assert OnlyRelay(Then(r, step), k, |r.steps|, id, reply);
    assert Resends(Then(r, step), k, id, s.rows[id], reply);
  }

  lemma WriteTells(r: Run, s: Sys, id: nat, k: nat)
    requires NextRetry(s, RetryWrite(id)).Some?
    requires id in s.locks && id in s.rows && Progress(r, k, id, s.rows[id], s.locks[id])
    ensures Progress(Then(r, RetryWrite(id)), k, id, s.rows[id], NextRetry(s, RetryWrite(id)).value.locks[id])
  {
    ProgressLasts(r, RetryWrite(id), k, id, s.rows[id], s.locks[id]);
  }

  lemma OwnStepTells(r: Run, s: Sys, step: Step)
    requires step.Look? || step.RetryRelay? || step.RetryWrite?
    requires StateAt(r, |r.steps|, s) && NextRetry(s, step).Some? && LockTells(r, s, step.id)
    ensures LockTells(Then(r, step), NextRetry(s, step).value, step.id)
  {
    RetryShape(s, step);
    var id, t := step.id, NextRetry(s, step).value;
    var k: nat :| TellsFrom(r, k, id, s.rows[id], s.locks[id]);
    HeldLasts(r, step, k, s.locks[id].owner, id, s.rows[id]);
    OwnProgress(r, s, step, k);
    assert TellsFrom(Then(r, step), k, id, t.rows[id], t.locks[id]);
  }

  lemma OwnProgress(r: Run, s: Sys, step: Step, k: nat)
    requires step.Look? || step.RetryRelay? || step.RetryWrite?
    requires StateAt(r, |r.steps|, s) && NextRetry(s, step).Some? && step.id in s.locks && step.id in s.rows
    requires k < |r.steps| && Progress(r, k, step.id, s.rows[step.id], s.locks[step.id])
    ensures step.id in NextRetry(s, step).value.locks
    ensures Progress(Then(r, step), k, step.id, s.rows[step.id], NextRetry(s, step).value.locks[step.id])
  {
    match step
    case Look(id) => LookTells(r, s, id, k);
    case RetryRelay(id, reply) => RelayTells(r, s, id, reply, k);
    case RetryWrite(id) => WriteTells(r, s, id, k);
  }

  lemma OtherStepTells(r: Run, s: Sys, step: Step, id: nat)
    requires Next(s, step).Some? && LockTells(r, s, id)
    requires !((step.Look? || step.RetryRelay? || step.RetryWrite?) && step.id == id)
    requires id in s.locks && id in Next(s, step).value.locks
    ensures LockTells(Then(r, step), Next(s, step).value, id)
  {
    var t := Next(s, step).value;
    LockedStays(s, step, id);
    var k: nat :| TellsFrom(r, k, id, s.rows[id], s.locks[id]);
    HeldLasts(r, step, k, s.locks[id].owner, id, s.rows[id]);
    ProgressLasts(r, step, k, id, s.rows[id], s.locks[id]);
    assert TellsFrom(Then(r, step), k, id, t.rows[id], t.locks[id]);
  }

  /** Nobody else touches a locked row or its lock. */
  lemma LockedStays(s: Sys, step: Step, id: nat)
    requires Next(s, step).Some? && id in s.locks && id in s.rows
    requires !((step.Look? || step.RetryRelay? || step.RetryWrite?) && step.id == id)
    requires id in Next(s, step).value.locks
    ensures var t := Next(s, step).value;
      id in t.rows && t.rows[id] == s.rows[id] && t.locks[id] == s.locks[id] && !Releases(step, s.locks[id].owner)
  {
    if step.Look? || step.RetryRelay? || step.RetryWrite? {
      RetryShape(s, step);
    }
  }

  lemma StepTells(r: Run, s: Sys, step: Step, id: nat)
    requires StateAt(r, |r.steps|, s) && Next(s, step).Some? && LockTells(r, s, id)
    ensures LockTells(Then(r, step), Next(s, step).value, id)
  {
    if id in Next(s, step).value.locks {
      if step.LockRows? && id in step.ids {
        TakeTells(r, s, step, id);
      } else if (step.Look? || step.RetryRelay? || step.RetryWrite?) && step.id == id {
        OwnStepTells(r, s, step);
      } else {
        HoldersChangeExactly(s, step);
        OtherStepTells(r, s, step, id);
      }
    }
  }

  /** In every run, whoever holds a row took it when it was 30 minutes old and open; it looks up the recorded
      transfer, calls the relayer at most once and only if there was no transfer or it had reverted, and
      writes Completed, Submitted with the new hash, or DeadLettered accordingly, or nothing. */
  lemma {:induction false} RetriesTellTruth(r: Run, id: nat)
    requires Exec(Init(r.now), r.steps).Some?
    ensures LockTells(r, Exec(Init(r.now), r.steps).value, id)
    decreases |r.steps|
  {
    if r.steps == [] {
    } else {
      var front, step := r.(steps := r.steps[..|r.steps| - 1]), r.steps[|r.steps| - 1];
      var s := Exec(Init(r.now), front.steps).value;
      RetriesTellTruth(front, id);
      assert Then(front, step) == r && front.steps[..|front.steps|] == front.steps;
      StepTells(front, s, step, id);
    }
  }
}
