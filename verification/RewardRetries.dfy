/** How often a reward is sent. The documentation promises one retry; the code retries again exactly
    when a retry run takes a row whose recorded transfer a retry has sent. Over every good run this
    counts the transfers of an invite to the last one, and bounds them by two when that never happens. */
module RewardRetries {
  import opened Common
  import opened RewardEntity
  import opened RewardSender
  import opened RewardSafety
  import opened RewardRuns

  ghost predicate RetriedBefore(s: Sys, id: nat) {
    exists h :: (id, h) in s.resent
  }

  /** The hash recorded on the row was sent by a retry. */
  predicate RecordsRetry(s: Sys, id: nat, row: Row) {
    row.rewardTxHash.Some? && (id, row.rewardTxHash.value) in s.resent
  }

  /** Once a retry has sent, the row records the hash of a retry, or is about to. */
  ghost predicate RetryTracked(s: Sys, id: nat)
    requires id in s.rows
  {
    && (id in s.locks && s.locks[id].task.Resent? ==> (id, s.locks[id].task.hash) in s.resent)
    && (RetriedBefore(s, id) ==>
          (id in s.locks && s.locks[id].task.Resent?) || RecordsRetry(s, id, Effective(s, id)))
  }

  /** At most one of the hashes sent for an invite is not from a retry, and none before it is relayed. */
  ghost predicate FirstOnce(s: Sys, id: nat)
    requires id in s.first
  {
    && (s.first[id].Relaying? ==> forall h :: (id, h) in s.sent ==> (id, h) in s.resent)
    && (forall h, g :: (id, h) in s.sent - s.resent && (id, g) in s.sent - s.resent ==> h == g)
  }

  /** A locked row is one that may be retried. */
  ghost predicate LockedRetryable(s: Sys, id: nat)
    requires id in s.rows
  {
    id in s.locks ==> Retryable(s.rows[id], s.now)
  }

  /** Retries send for old rows only. */
  ghost predicate OldEnough(s: Sys, id: nat)
    requires id in s.rows
  {
    && (RetriedBefore(s, id) ==> s.rows[id].createdAt <= s.now - RETRY_AGE_MS)
    && (id in s.locks && s.locks[id].write.Some? ==> s.locks[id].write.value.createdAt == s.rows[id].createdAt)
  }

  ghost predicate InviteRetries(s: Sys, id: nat) {
    && id in s.rows && id in s.first
    && RetryTracked(s, id) && FirstOnce(s, id) && LockedRetryable(s, id) && OldEnough(s, id)
  }

  ghost predicate RetryInv(s: Sys) {
    && (forall id :: id in s.rows ==> InviteRetries(s, id))
    && s.resent <= s.sent
  }

  // ----- Every good step keeps it

  /** Nothing changes for an invite. */
  ghost predicate SameInvite(s: Sys, t: Sys, id: nat)
    requires id in s.rows && id in s.first
  {
    && id in t.rows && t.rows[id] == s.rows[id] && id in t.first && t.first[id] == s.first[id]
    && (id in t.locks <==> id in s.locks) && (id in s.locks ==> t.locks[id] == s.locks[id])
    && (forall h :: (id, h) in t.sent <==> (id, h) in s.sent)
    && (forall h :: (id, h) in t.resent <==> (id, h) in s.resent)
    && s.now <= t.now
  }

  lemma RetriesFrame(s: Sys, t: Sys, id: nat)
    requires InviteRetries(s, id) && SameInvite(s, t, id)
    ensures InviteRetries(t, id)
  {
    assert Effective(t, id) == Effective(s, id);
    if h :| (id, h) in t.resent {
      assert (id, h) in s.resent;
      assert RetriedBefore(s, id);
      var row := Effective(s, id);
      if row.rewardTxHash.Some? {
        var g := row.rewardTxHash.value;
        assert (id, g) in t.resent <==> (id, g) in s.resent;
      }
    }
  }

  lemma FirstRelayKeepsRetries(s: Sys, id: nat, reply: Reply)
    requires Inv(s) && RetryInv(s) && NextFirst(s, FirstRelay(id, reply)).Some?
    ensures InviteRetries(NextFirst(s, FirstRelay(id, reply)).value, id)
  {
  }

  lemma FirstWriteKeepsRetries(s: Sys, id: nat, instance: nat)
    requires Inv(s) && RetryInv(s) && NextFirst(s, FirstWrite(id, instance)).Some?
    ensures InviteRetries(NextFirst(s, FirstWrite(id, instance)).value, id)
  {
  }

  lemma RetryRelayKeepsRetries(s: Sys, id: nat, reply: Reply)
    requires Inv(s) && RetryInv(s) && !Leaks(reply) && NextRetry(s, RetryRelay(id, reply)).Some?
    ensures InviteRetries(NextRetry(s, RetryRelay(id, reply)).value, id)
  {
  }

  lemma OtherRetryKeepsRetries(s: Sys, step: Step)
    requires step.Look? || step.RetryWrite?
    requires Inv(s) && RetryInv(s) && NextRetry(s, step).Some?
    ensures InviteRetries(NextRetry(s, step).value, step.id)
  {
    var t := NextRetry(s, step).value;
    RetryShape(s, step);
    assert InviteOk(s, step.id) && InviteRetries(s, step.id);
    assert RetriedBefore(t, step.id) ==> RetriedBefore(s, step.id);
  }

  lemma LockKeepsRetries(s: Sys, instance: nat, ids: set<nat>, id: nat)
    requires RetryInv(s) && NextTxn(s, LockRows(instance, ids)).Some? && id in s.rows
    ensures InviteRetries(NextTxn(s, LockRows(instance, ids)).value, id)
  {
  }

  lemma CommitKeepsRetries(s: Sys, instance: nat, id: nat)
    requires RetryInv(s) && NextTxn(s, Commit(instance)).Some? && id in s.rows
    ensures InviteRetries(NextTxn(s, Commit(instance)).value, id)
  {
  }

  lemma OnlyRetriesGrow(s: Sys, step: Step)
    requires Next(s, step).Some?
    ensures step.RetryRelay? && Broadcast(step.reply).Some? ==>
      && Next(s, step).value.resent == s.resent + {(step.id, Broadcast(step.reply).value)}
      && FreshHash(s, Broadcast(step.reply).value)
      && step.id in s.rows && step.id in s.locks && s.locks[step.id].task.Resending?
    ensures !(step.RetryRelay? && Broadcast(step.reply).Some?) ==> Next(s, step).value.resent == s.resent
  {
  }

  lemma FirstTouchesOne(s: Sys, step: Step, id: nat)
    requires step.Create? || step.FirstRelay? || step.FirstWrite?
    requires NextFirst(s, step).Some? && id in s.rows && id in s.first && id != step.id
    ensures SameInvite(s, NextFirst(s, step).value, id)
  {
  }

  lemma RetryTouchesOne(s: Sys, step: Step, id: nat)
    requires step.Look? || step.RetryRelay? || step.RetryWrite?
    requires NextRetry(s, step).Some? && id in s.rows && id in s.first && id != step.id
    ensures SameInvite(s, NextRetry(s, step).value, id)
  {
  }

  lemma InviteKeepsRetries(s: Sys, step: Step, id: nat)
    requires Inv(s) && RetryInv(s) && HonestStep(step) && Next(s, step).Some? && id in s.rows
    ensures InviteRetries(Next(s, step).value, id)
  {
    if step.LockRows? {
      LockKeepsRetries(s, step.instance, step.ids, id);
    } else if step.Commit? {
      CommitKeepsRetries(s, step.instance, id);
    } else if step.Create? || step.FirstRelay? || step.FirstWrite? {
      FirstKeepsRetries(s, step, id);
    } else if step.Look? || step.RetryRelay? || step.RetryWrite? {
      RetryKeepsRetries(s, step, id);
    } else {
      QuietKeepsRetries(s, step, id);
    }
  }

  lemma QuietKeepsRetries(s: Sys, step: Step, id: nat)
    requires step.Observe? || step.WatchWrite? || step.Mine? || step.Clock?
    requires RetryInv(s) && Next(s, step).Some? && id in s.rows
    ensures InviteRetries(Next(s, step).value, id)
  {
  }

  lemma FirstKeepsRetries(s: Sys, step: Step, id: nat)
    requires step.Create? || step.FirstRelay? || step.FirstWrite?
    requires Inv(s) && RetryInv(s) && NextFirst(s, step).Some? && id in s.rows
    ensures InviteRetries(NextFirst(s, step).value, id)
  {
    if id != step.id {
      FirstTouchesOne(s, step, id);
      RetriesFrame(s, NextFirst(s, step).value, id);
    } else if step.FirstRelay? {
      FirstRelayKeepsRetries(s, id, step.reply);
    } else {
      FirstWriteKeepsRetries(s, id, step.instance);
    }
  }

  lemma RetryKeepsRetries(s: Sys, step: Step, id: nat)
    requires step.Look? || step.RetryRelay? || step.RetryWrite?
    requires Inv(s) && RetryInv(s) && HonestStep(step) && NextRetry(s, step).Some? && id in s.rows
    ensures InviteRetries(NextRetry(s, step).value, id)
  {
    if id != step.id {
      RetryTouchesOne(s, step, id);
      RetriesFrame(s, NextRetry(s, step).value, id);
    } else if step.RetryRelay? {
      RetryRelayKeepsRetries(s, id, step.reply);
    } else {
      OtherRetryKeepsRetries(s, step);
    }
  }

  /** Only a creation adds a row, and nothing was sent for it before. */
  lemma NewRowKeepsRetries(s: Sys, step: Step, id: nat)
    requires Inv(s) && RetryInv(s) && Next(s, step).Some? && id !in s.rows && id in Next(s, step).value.rows
    ensures InviteRetries(Next(s, step).value, id)
  {
    assert step.Create? && step.id == id;
    assert forall h :: (id, h) in s.sent || (id, h) in s.resent ==> (id, h).0 in s.rows;
  }

  lemma StepKeepsRetries(s: Sys, step: Step)
    requires Inv(s) && RetryInv(s) && HonestStep(step) && Next(s, step).Some?
    requires Inv(Next(s, step).value)
    ensures RetryInv(Next(s, step).value)
  {
    var t := Next(s, step).value;
    forall id | id in t.rows
      ensures InviteRetries(t, id)
    {
      if id in s.rows {
        InviteKeepsRetries(s, step, id);
      } else {
        NewRowKeepsRetries(s, step, id);
      }
    }
  }

  lemma {:induction false} RunKeepsRetries(s: Sys, steps: seq<Step>)
    requires Inv(s) && RetryInv(s) && GoodRun(s, steps)
    ensures Inv(Exec(s, steps).value) && RetryInv(Exec(s, steps).value)
  {
    RunKeepsInv(s, steps);
    if steps == [] {
    } else {
      var front := steps[..|steps| - 1];
      RunKeepsRetries(s, front);
      StepKeepsRetries(Exec(s, front).value, steps[|steps| - 1]);
    }
  }

  // ----- When a retry sends again

  /** A retry that is about to call the relayer is a further retry exactly when the row it has locked
      records a hash that a retry sent. That hash has reverted, and the row still counts as retryable
      because no watcher has marked it DeadLettered. */
  lemma FurtherRetryExactly(now: int, steps: seq<Step>, id: nat)
    requires GoodRun(Init(now), steps)
    requires var s := Exec(Init(now), steps).value; id in s.rows && id in s.locks && s.locks[id].task.Resending?
    ensures var s := Exec(Init(now), steps).value;
      && (RetriedBefore(s, id) <==> RecordsRetry(s, id, s.rows[id]))
      && (s.rows[id].rewardTxHash.Some? ==> Reverted(s, s.rows[id].rewardTxHash.value))
      && Retryable(s.rows[id], s.now)
  {
    RunKeepsRetries(Init(now), steps);
    var s := Exec(Init(now), steps).value;
    assert InviteOk(s, id) && InviteRetries(s, id);
    if s.rows[id].rewardTxHash.Some? {
      assert !Alive(s, id, s.rows[id].rewardTxHash.value);
    }
  }

  function HashesFor(hashes: set<(nat, Hash)>, id: nat): set<(nat, Hash)> {
    set p | p in hashes && p.0 == id
  }

  /** A retry that sends although the row it has locked records a hash that a retry sent. */
  predicate RerunStep(s: Sys, step: Step, id: nat) {
    && step.RetryRelay? && step.id == id && Broadcast(step.reply).Some?
    && id in s.rows && RecordsRetry(s, id, s.rows[id])
  }

  /** The number of such steps for an invite in a run. */
  function Reruns(s: Sys, steps: seq<Step>, id: nat): nat {
    if steps == [] then 0
    else
      var front := steps[..|steps| - 1];
      Reruns(s, front, id)
      + if Exec(s, front).Some? && RerunStep(Exec(s, front).value, steps[|steps| - 1], id) then 1 else 0
  }

  lemma OneMore(hashes: set<(nat, Hash)>, p: (nat, Hash), id: nat)
    requires p !in hashes
    ensures |HashesFor(hashes + {p}, id)| == |HashesFor(hashes, id)| + if p.0 == id then 1 else 0
  {
    if p.0 == id {
      assert HashesFor(hashes + {p}, id) == HashesFor(hashes, id) + {p};
    } else {
      assert HashesFor(hashes + {p}, id) == HashesFor(hashes, id);
    }
  }

  lemma NoHashIff(s: Sys, id: nat)
    ensures |HashesFor(s.resent, id)| == 0 <==> !RetriedBefore(s, id)
  {
    if h :| (id, h) in s.resent {
      assert (id, h) in HashesFor(s.resent, id);
    }
    if p :| p in HashesFor(s.resent, id) {
      var h := p.1;
      assert (id, h) in s.resent;
    }
  }

  /** The first retry that sends is never a rerun, and every later one is. */
  lemma {:induction false} RetrySendsExactly(now: int, steps: seq<Step>, id: nat)
    requires GoodRun(Init(now), steps)
    ensures var n := |HashesFor(Exec(Init(now), steps).value.resent, id)|;
      n == (if n == 0 then 0 else 1) + Reruns(Init(now), steps, id)
  {
    if steps == [] {
    } else {
      var front, step := steps[..|steps| - 1], steps[|steps| - 1];
      RetrySendsExactly(now, front, id);
      var m := Exec(Init(now), front).value;
      OnlyRetriesGrow(m, step);
      if step.RetryRelay? && Broadcast(step.reply).Some? {
        RetrySendCounts(now, front, step, id);
      }
    }
  }

  lemma RetrySendCounts(now: int, steps: seq<Step>, step: Step, id: nat)
    requires GoodRun(Init(now), steps) && step.RetryRelay? && Broadcast(step.reply).Some?
    requires Next(Exec(Init(now), steps).value, step).Some?
    ensures var m := Exec(Init(now), steps).value;
      var before, after := |HashesFor(m.resent, id)|, |HashesFor(Next(m, step).value.resent, id)|;
      && after == before + (if step.id == id then 1 else 0)
      && (RerunStep(m, step, id) <==> step.id == id && before > 0)
  {
    var m := Exec(Init(now), steps).value;
    var p := (step.id, Broadcast(step.reply).value);
    OnlyRetriesGrow(m, step);
    RunKeepsRetries(Init(now), steps);
    assert InviteRetries(m, step.id);
    assert p !in m.sent && p !in m.resent;
    OneMore(m.resent, p, id);
    NoHashIff(m, id);
    if step.id == id {
      FurtherRetryExactly(now, steps, id);
    }
  }

  lemma AtMostOneElement<T>(xs: set<T>)
    requires forall x, y :: x in xs && y in xs ==> x == y
    ensures |xs| <= 1
  {
    if x :| x in xs {
      assert xs == {x};
    }
  }

  lemma OneFirstHash(s: Sys, id: nat)
    requires Inv(s) && RetryInv(s)
    ensures |HashesFor(s.sent - s.resent, id)| <= 1
  {
    var firsts := HashesFor(s.sent - s.resent, id);
    forall p, q | p in firsts && q in firsts
      ensures p == q
    {
      var h, g := p.1, q.1;
      assert p == (id, h) && q == (id, g);
      assert id in s.rows && FirstOnce(s, id);
    }
    AtMostOneElement(firsts);
  }

  lemma SplitHashes(sent: set<(nat, Hash)>, resent: set<(nat, Hash)>, id: nat)
    requires resent <= sent
    ensures |HashesFor(sent, id)| == |HashesFor(sent - resent, id)| + |HashesFor(resent, id)|
  {
    assert HashesFor(sent, id) == HashesFor(sent - resent, id) + HashesFor(resent, id);
  }

  /** The transfers ever sent for an invite, counted exactly: at most one by the first send, one by the
      first retry that sends, and one by each rerun. So there is a third transfer exactly when two
      reruns sent, or one did and the first send had reached the network too. */
  lemma TransfersCounted(now: int, steps: seq<Step>, id: nat)
    requires GoodRun(Init(now), steps)
    ensures var s := Exec(Init(now), steps).value;
      var first, retries := |HashesFor(s.sent - s.resent, id)|, |HashesFor(s.resent, id)|;
      var reruns := Reruns(Init(now), steps, id);
      && first <= 1
      && |HashesFor(s.sent, id)| == first + (if retries == 0 then 0 else 1) + reruns
      && (|HashesFor(s.sent, id)| > 2 <==> reruns > 1 || (reruns == 1 && first == 1))
  {
    RunKeepsRetries(Init(now), steps);
    RetrySendsExactly(now, steps, id);
    var s := Exec(Init(now), steps).value;
    OneFirstHash(s, id);
    SplitHashes(s.sent, s.resent, id);
  }

  // ----- The lock that leads to it

  /** A retry run takes a row whose recorded transfer was sent by a retry. */
  predicate Relocks(s: Sys, step: Step, id: nat) {
    step.LockRows? && id in step.ids && id in s.rows && RecordsRetry(s, id, s.rows[id])
  }

  predicate NoRelock(s: Sys, steps: seq<Step>, id: nat) {
    steps == [] ||
    var front := steps[..|steps| - 1];
    && NoRelock(s, front, id)
    && (Exec(s, front).Some? ==> !Relocks(Exec(s, front).value, steps[|steps| - 1], id))
  }

  predicate LockedFirstOnly(s: Sys, id: nat) {
    id in s.locks && id in s.rows ==> !RecordsRetry(s, id, s.rows[id])
  }

  /** While a row is locked its recorded hash stays, and a retry sends under a new hash. */
  lemma StepKeepsLockedFirst(s: Sys, step: Step, id: nat)
    requires Inv(s) && HonestStep(step) && Next(s, step).Some?
    requires LockedFirstOnly(s, id) && !Relocks(s, step, id)
    ensures LockedFirstOnly(Next(s, step).value, id)
  {
    var t := Next(s, step).value;
    OnlyRetriesGrow(s, step);
    if id in t.locks && id in s.rows {
      assert InviteOk(s, id);
      if id in s.locks {
        LockedRowStays(s, step, id);
      }
    }
  }

  lemma LockedRowStays(s: Sys, step: Step, id: nat)
    requires Next(s, step).Some? && id in s.locks && id in s.rows && id in Next(s, step).value.locks
    ensures id in Next(s, step).value.rows && Next(s, step).value.rows[id] == s.rows[id]
  {
  }

  lemma {:induction false} NoRelockNoRerun(now: int, steps: seq<Step>, id: nat)
    requires GoodRun(Init(now), steps) && NoRelock(Init(now), steps, id)
    ensures LockedFirstOnly(Exec(Init(now), steps).value, id) && Reruns(Init(now), steps, id) == 0
  {
    if steps == [] {
    } else {
      var front, step := steps[..|steps| - 1], steps[|steps| - 1];
      NoRelockNoRerun(now, front, id);
      RunKeepsInv(Init(now), front);
      var m := Exec(Init(now), front).value;
      StepKeepsLockedFirst(m, step, id);
      OnlyRetriesGrow(m, step);
    }
  }

  /** The documented limit holds in every good run in which no retry run takes the row while it records
      the hash of a retry: then at most two transfers are ever sent for the invite. */
  lemma AtMostTwoTransfers(now: int, steps: seq<Step>, id: nat)
    requires GoodRun(Init(now), steps) && NoRelock(Init(now), steps, id)
    ensures |HashesFor(Exec(Init(now), steps).value.sent, id)| <= 2
  {
    NoRelockNoRerun(now, steps, id);
    TransfersCounted(now, steps, id);
  }

  /** Conversely, whenever a retry run takes a row that a retry has sent for and whose recorded transfer
      has reverted, it takes the hash of a retry, and it sends one more transfer if the relayer accepts. */
  lemma RelockSendsAgain(now: int, steps: seq<Step>, instance: nat, id: nat, h: Hash) returns (t: Sys)
    requires GoodRun(Init(now), steps)
    requires var s := Exec(Init(now), steps).value;
      && RetriedBefore(s, id) && id in s.rows && id !in s.locks && Retryable(s.rows[id], s.now)
      && RetryStatus(s.receipts, s.rows[id].rewardTxHash) == TxFailed
      && OwnsNothing(s, instance) && FreshHash(s, h)
    ensures var s := Exec(Init(now), steps).value;
      && Relocks(s, LockRows(instance, {id}), id)
      && GoodFrom(Init(now), t)
      && |HashesFor(t.sent, id)| == |HashesFor(s.sent, id)| + 1
  {
    RunKeepsRetries(Init(now), steps);
    var s := Exec(Init(now), steps).value;
    assert InviteRetries(s, id);
    t := GoodResend(Init(now), s, instance, id, h);
    assert (id, h) !in s.sent;
    OneMore(s.sent, (id, h), id);
  }
}
