/** One retry run over a single row, from its lock to its commit, as a sequence of good steps. */
module RewardRuns {
  import opened Common
  import opened RewardEntity
  import opened RewardSender
  import opened RewardSafety

  ghost predicate OwnsNothing(s: Sys, instance: nat) {
    forall id :: id in s.locks ==> s.locks[id].owner != instance
  }

  lemma LockOne(s0: Sys, s: Sys, instance: nat, id: nat) returns (t: Sys)
    requires GoodFrom(s0, s) && OwnsNothing(s, instance)
    requires id in s.rows && id !in s.locks && Retryable(s.rows[id], s.now)
    ensures GoodFrom(s0, t)
    ensures t == s.(locks := s.locks[id := Lock(instance, Looking(s.rows[id].rewardTxHash), None)])
  {
    t := GoodExtend(s0, s, LockRows(instance, {id}));
    assert t.locks == s.locks[id := Lock(instance, Looking(s.rows[id].rewardTxHash), None)];
  }

  lemma CommitOne(s0: Sys, s: Sys, instance: nat, id: nat, row: Row, before: Sys)
    requires OwnsNothing(before, instance) && id in before.rows && id !in before.locks
    requires s.rows == before.rows && s.locks == before.locks[id := Lock(instance, Over, Some(row))]
    requires s.first == before.first && s.now == before.now
    requires GoodFrom(s0, s) && row.createdAt == before.rows[id].createdAt
    ensures GoodFrom(s0, s.(rows := before.rows[id := row], locks := before.locks))
  {
    var t := s.(rows := before.rows[id := row], locks := before.locks);
    assert Committed(s, instance) == before.rows[id := row];
    assert Unlocked(s, instance) == before.locks;
    assert Next(s, Commit(instance)) == Some(t);
    assert Timely(s) && Timely(t);
    var u := GoodExtend(s0, s, Commit(instance));
  }

  /** The recorded transfer turns out to have succeeded. */
  lemma GoodConfirm(s0: Sys, s: Sys, instance: nat, id: nat)
    requires GoodFrom(s0, s) && OwnsNothing(s, instance)
    requires id in s.rows && id !in s.locks && Retryable(s.rows[id], s.now)
    requires s.rows[id].rewardTxHash.Some? && StatusOf(s.receipts, s.rows[id].rewardTxHash.value) == TxCompleted
    ensures GoodFrom(s0, s.(rows := s.rows[id := s.rows[id].(state := Completed)]))
  {
    var row := s.rows[id].(state := Completed);
    var a := LockOne(s0, s, instance, id);
    var b := GoodExtend(s0, a, Look(id));
    var c := GoodExtend(s0, b, RetryWrite(id));
    assert c.locks == s.locks[id := Lock(instance, Over, Some(row))];
    CommitOne(s0, c, instance, id, row, s);
    assert c.(rows := s.rows[id := row], locks := s.locks) == s.(rows := s.rows[id := row]);
  }

  /** The recorded transfer has reverted, or there is none: the run has sent once more. */
  lemma GoodResend(s0: Sys, s: Sys, instance: nat, id: nat, h: Hash) returns (t: Sys)
    requires GoodFrom(s0, s) && OwnsNothing(s, instance)
    requires id in s.rows && id !in s.locks && Retryable(s.rows[id], s.now)
    requires RetryStatus(s.receipts, s.rows[id].rewardTxHash) == TxFailed && FreshHash(s, h)
    ensures GoodFrom(s0, t)
    ensures t == s.(locks := s.locks[id := Lock(instance, Resent(h), None)],
                    sent := s.sent + {(id, h)}, resent := s.resent + {(id, h)})
  {
    var a := LockOne(s0, s, instance, id);
    var b := GoodExtend(s0, a, Look(id));
    assert b == s.(locks := s.locks[id := Lock(instance, Resending, None)]);
    t := GoodExtend(s0, b, RetryRelay(id, RelayOk(h)));
    assert t.locks == s.locks[id := Lock(instance, Resent(h), None)];
  }

  /** The same, up to and including the commit. */
  lemma GoodRetry(s0: Sys, s: Sys, instance: nat, id: nat, h: Hash)
    requires GoodFrom(s0, s) && OwnsNothing(s, instance)
    requires id in s.rows && id !in s.locks && Retryable(s.rows[id], s.now)
    requires RetryStatus(s.receipts, s.rows[id].rewardTxHash) == TxFailed && FreshHash(s, h)
    ensures GoodFrom(s0, s.(rows := s.rows[id := s.rows[id].(state := Submitted, rewardTxHash := Some(h))],
                            watched := s.watched + {WatchedInvite(instance, id, h, true)},
                            sent := s.sent + {(id, h)}, resent := s.resent + {(id, h)}))
  {
    var row := s.rows[id].(state := Submitted, rewardTxHash := Some(h));
    var a := GoodResend(s0, s, instance, id, h);
    var b := GoodExtend(s0, a, RetryWrite(id));
    assert b.locks == s.locks[id := Lock(instance, Over, Some(row))];
    CommitOne(s0, b, instance, id, row, s);
    assert b.(rows := s.rows[id := row], locks := s.locks) ==
      s.(rows := s.rows[id := row], watched := s.watched + {WatchedInvite(instance, id, h, true)},
         sent := s.sent + {(id, h)}, resent := s.resent + {(id, h)});
  }
}
