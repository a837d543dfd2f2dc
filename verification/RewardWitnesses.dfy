/** Concrete runs of the reward sender: each hypothesis of `RewardSafety` is needed, and a paid row
    can lose its Completed state even when all of them hold. */
module RewardWitnesses {
  import opened Common
  import opened RewardEntity
  import opened RewardSender
  import opened RewardSafety
  import opened RewardRetries
  import opened RewardRuns
  import opened RewardRepair

  ghost predicate Reachable(s: Sys) {
    exists steps :: Exec(Init(0), steps) == Some(s)
  }

  lemma ReachInit()
    ensures Reachable(Init(0))
  {
    assert Exec(Init(0), []) == Some(Init(0));
  }

  lemma Extend(s: Sys, step: Step) returns (t: Sys)
    requires Reachable(s) && Next(s, step).Some?
    ensures t == Next(s, step).value && Reachable(t)
  {
    t := Next(s, step).value;
    var steps :| Exec(Init(0), steps) == Some(s);
    assert (steps + [step])[..|steps|] == steps;
    assert Exec(Init(0), steps + [step]) == Some(t);
  }

  /** Two transfers for the same invite have succeeded. */
  ghost predicate PaidTwice(s: Sys, id: nat) {
    exists h, g ::
      && h != g && (id, h) in s.sent && (id, g) in s.sent
      && h in s.receipts && s.receipts[h] && g in s.receipts && s.receipts[g]
  }

  /** An old row without a recorded hash, locked by a retry. */
  function Locked(s: Sys, instance: nat, id: nat, task: Task): Sys {
    s.(locks := map[id := Lock(instance, task, None)])
  }

  lemma LockFree(s: Sys, instance: nat, id: nat)
    requires Reachable(s) && s.locks == map[] && id in s.rows && s.rows[id].rewardTxHash.None?
    requires Retryable(s.rows[id], s.now)
    ensures Reachable(Locked(s, instance, id, Looking(None)))
  {
    var a := Extend(s, LockRows(instance, {id}));
    assert a.locks == map[id := Lock(instance, Looking(None), None)];
  }

  lemma LookFree(s: Sys, instance: nat, id: nat)
    requires id in s.rows && Reachable(Locked(s, instance, id, Looking(None)))
    ensures Reachable(Locked(s, instance, id, Resending))
  {
    var a := Extend(Locked(s, instance, id, Looking(None)), Look(id));
    assert a.locks == map[id := Lock(instance, Resending, None)];
  }

  /** An old, unlocked, retryable row whose recorded hash is missing gets one more transfer. */
  lemma RetryOnce(s: Sys, instance: nat, id: nat, h: Hash) returns (t: Sys)
    requires Reachable(s) && s.locks == map[] && id in s.rows && s.rows[id].rewardTxHash.None?
    requires Retryable(s.rows[id], s.now) && FreshHash(s, h)
    ensures Reachable(t) && t.sent == s.sent + {(id, h)} && t.receipts == s.receipts && t.now == s.now
    ensures t.rows == s.rows && t.first == s.first && t.firstSends == s.firstSends
    ensures t.locks == map[id := Lock(instance, Resent(h), None)]
  {
    LockFree(s, instance, id);
    LookFree(s, instance, id);
    t := Extend(Locked(s, instance, id, Resending), RetryRelay(id, RelayOk(h)));
    assert t.locks == map[id := Lock(instance, Resent(h), None)];
  }

  lemma MineOne(s: Sys, id: nat, h: Hash, success: bool) returns (t: Sys)
    requires Reachable(s) && h !in s.receipts && (id, h) in s.sent
    ensures Reachable(t) && t == s.(receipts := s.receipts[h := success])
  {
    assert !FreshHash(s, h) by { assert (id, h).1 == h; }
    t := Extend(s, Mine(h, success));
  }

  lemma BothMined(t: Sys, id: nat, h: Hash, g: Hash)
    requires h != g && (id, h) in t.sent && (id, g) in t.sent && t.receipts == map[h := true, g := true]
    ensures PaidTwice(t, id)
  {
    assert t.receipts[h] && t.receipts[g];
  }

  lemma MineBoth(s: Sys, id: nat, h: Hash, g: Hash) returns (t: Sys)
    requires Reachable(s) && s.receipts == map[] && h != g && (id, h) in s.sent && (id, g) in s.sent
    ensures Reachable(t) && PaidTwice(t, id)
  {
    var a := MineOne(s, id, h, true);
    assert a.receipts == map[h := true];
    t := MineOne(a, id, g, true);
    BothMined(t, id, h, g);
  }

  /** A row whose first send is on its way to the relayer. */
  const CREATED := Sys(
    map[0 := Row("invitee", Created, None, 0)], map[0 := Relaying], map[], {}, {}, {}, {}, [], map[], 0)

  /** An Err of the relayer although the transaction was broadcast (its reply lost the race against
      the timeout) leads to two transfers. */
  lemma LeakedErrPaysTwice() returns (s: Sys)
    ensures Reachable(s) && PaidTwice(s, 0)
  {
    ReachInit();
    var a := Extend(Init(0), Create(0, "invitee"));
    assert a == CREATED;
    var b := Extend(a, FirstRelay(0, RelayErr(Some(1))));
    assert b == CREATED.(first := map[0 := GotErr], sent := {(0, 1)}, firstSends := ["invitee"]);
    var c := Extend(b, FirstWrite(0, 0));
    assert c == b.(rows := map[0 := Row("invitee", Failed, None, 0)], first := map[0 := Settled]);
    s := RetryAndMine(c);
  }

  lemma RetryAndMine(c: Sys) returns (s: Sys)
    requires Reachable(c) && c.rows == map[0 := Row("invitee", Failed, None, 0)]
    requires c.locks == map[] && c.sent == {(0, 1)} && c.receipts == map[] && c.now == 0
    ensures Reachable(s) && PaidTwice(s, 0)
  {
    var d := Extend(c, Clock(RETRY_AGE_MS));
    var e := RetryOnce(d, 0, 0, 2);
    s := MineBoth(e, 0, 1, 2);
  }

  /** A rolled-back retry transaction forgets the hash it sent, and the next retry sends again. */
  lemma RollbackPaysTwice() returns (s: Sys)
    ensures Reachable(s) && PaidTwice(s, 0)
  {
    ReachStale();
    var a := RetryOnce(STALE, 0, 0, 1);
    var b := Extend(a, Rollback(0));
    assert b.locks == map[];
    var c := RetryOnce(b, 1, 0, 2);
    s := MineBoth(c, 0, 1, 2);
  }

  /** An old row whose first send threw before anything was broadcast. */
  const STALE := Sys(
    map[0 := Row("invitee", Created, None, 0)], map[0 := Settled], map[], {}, {}, {}, {},
    ["invitee"], map[], RETRY_AGE_MS)

  lemma ReachStale()
    ensures Reachable(STALE)
  {
    ReachInit();
    var a := Extend(Init(0), Create(0, "invitee"));
    var b := Extend(a, FirstRelay(0, RelayThrow));
    var c := Extend(b, Clock(RETRY_AGE_MS));
    assert c == STALE;
  }

  /** A first send that is still running when its row becomes retryable is sent a second time. */
  lemma LateFirstSendPaysTwice() returns (s: Sys)
    ensures Reachable(s) && PaidTwice(s, 0)
  {
    ReachInit();
    var a := Extend(Init(0), Create(0, "invitee"));
    var b := Extend(a, Clock(RETRY_AGE_MS));
    var c := RetryOnce(b, 1, 0, 1);
    var d := Extend(c, FirstRelay(0, RelayOk(2)));
    s := MineBoth(d, 0, 1, 2);
  }

  // ----- Runs that satisfy every hypothesis

  ghost predicate GoodReachable(s: Sys) {
    GoodFrom(Init(0), s)
  }

  const W1 := WatchedInvite(0, 0, 1, false)
  const W2 := WatchedInvite(0, 0, 2, true)
  const W3 := WatchedInvite(0, 0, 3, true)

  /** After a first send whose transfer got hash 1. */
  const SENT := Sys(
    map[0 := Row("invitee", Submitted, Some(1), 0)], map[0 := Settled], map[], {W1}, {}, {(0, 1)}, {},
    ["invitee"], map[], 0)

  /** The transfer reverted, a watcher saw it but has not written yet, and the row is retryable. */
  const REVERTED := SENT.(receipts := map[1 := false], verdicts := {Verdict(W1, false)}, now := RETRY_AGE_MS)

  /** A retry has sent hash 2 and committed. */
  const RESENT := REVERTED.(
    rows := map[0 := Row("invitee", Submitted, Some(2), 0)], sent := {(0, 1), (0, 2)}, resent := {(0, 2)},
    watched := {W1, W2})

  /** That transfer succeeded and the row is Completed. */
  const PAID := RESENT.(
    rows := map[0 := Row("invitee", Completed, Some(2), 0)], receipts := map[1 := false, 2 := true], watched := {W1})

  lemma ReachCreated()
    ensures GoodReachable(CREATED)
  {
    GoodStart(Init(0));
    var a := GoodExtend(Init(0), Init(0), Create(0, "invitee"));
    assert a == CREATED;
  }

  lemma ReachSent()
    ensures GoodReachable(SENT)
  {
    ReachCreated();
    var a := GoodExtend(Init(0), CREATED, FirstRelay(0, RelayOk(1)));
    assert a == CREATED.(first := map[0 := GotHash(1)], sent := {(0, 1)}, firstSends := ["invitee"]);
    var b := GoodExtend(Init(0), a, FirstWrite(0, 0));
    assert b == SENT;
  }

  /** A transfer that was sent gets its receipt. */
  lemma GoodMine(s: Sys, h: Hash, success: bool)
    requires GoodReachable(s) && h !in s.receipts && (0, h) in s.sent
    ensures GoodReachable(s.(receipts := s.receipts[h := success]))
  {
    assert !FreshHash(s, h) by { assert (0, h).1 == h; }
    var t := GoodExtend(Init(0), s, Mine(h, success));
  }

  lemma ReachReverted()
    ensures GoodReachable(REVERTED)
  {
    ReachSent();
    GoodMine(SENT, 1, false);
    var a := SENT.(receipts := map[1 := false]);
    assert SENT.receipts[1 := false] == a.receipts;
    var b := GoodExtend(Init(0), a, Observe(W1));
    assert b.verdicts == {Verdict(W1, false)};
    var c := GoodExtend(Init(0), b, Clock(RETRY_AGE_MS));
    assert c == REVERTED;
  }

  lemma ReachResent()
    ensures GoodReachable(RESENT)
  {
    ReachReverted();
    GoodRetry(Init(0), REVERTED, 0, 0, 2);
    assert REVERTED.rows[0 := REVERTED.rows[0].(state := Submitted, rewardTxHash := Some(2))] == RESENT.rows;
    assert REVERTED.sent + {(0, 2)} == RESENT.sent && REVERTED.resent + {(0, 2)} == RESENT.resent;
    assert REVERTED.watched + {W2} == RESENT.watched;
  }

  lemma ReachPaid()
    ensures GoodReachable(PAID)
  {
    ReachResent();
    GoodMine(RESENT, 2, true);
    var a := RESENT.(receipts := PAID.receipts);
    assert RESENT.receipts[2 := true] == PAID.receipts;
    var b := GoodExtend(Init(0), a, Observe(W2));
    assert b == a.(verdicts := {Verdict(W1, false), Verdict(W2, true)});
    SettlePaid(a, b);
  }

  lemma SettlePaid(a: Sys, b: Sys)
    requires a == RESENT.(receipts := PAID.receipts) && b == a.(verdicts := {Verdict(W1, false), Verdict(W2, true)})
    requires GoodReachable(b)
    ensures GoodReachable(PAID)
  {
    var c := GoodExtend(Init(0), b, WatchWrite(Verdict(W2, true)));
    assert c.verdicts == {Verdict(W1, false)} && c.watched == {W1} && c.rows == PAID.rows;
    assert c == PAID;
  }

  /** A stale watcher then overwrites the state of a row that has been paid. */
  lemma StaleWatcherOverwrites() returns (s: Sys)
    ensures GoodReachable(s) && 0 in s.rows && s.rows[0].state == Failed && s.rows[0].rewardTxHash == Some(2)
    ensures 2 in s.receipts && s.receipts[2]
  {
    ReachPaid();
    s := GoodExtend(Init(0), PAID, WatchWrite(Verdict(W1, false)));
  }

  // ----- A third transfer, and a paid row that stays DeadLettered

  /** The first watcher has written that its transfer reverted. */
  const FAILED := REVERTED.(
    rows := map[0 := Row("invitee", Failed, Some(1), 0)], watched := {}, verdicts := {})

  /** A retry sent hash 2, that reverted too, and its watcher has seen it but not written yet. */
  const FAILED_AGAIN := FAILED.(
    rows := map[0 := Row("invitee", Submitted, Some(2), 0)], sent := {(0, 1), (0, 2)}, resent := {(0, 2)},
    watched := {W2}, verdicts := {Verdict(W2, false)}, receipts := map[1 := false, 2 := false])

  /** A second retry sent hash 3. */
  const THIRD := FAILED_AGAIN.(
    rows := map[0 := Row("invitee", Submitted, Some(3), 0)], sent := {(0, 1), (0, 2), (0, 3)},
    resent := {(0, 2), (0, 3)}, watched := {W2, W3})

  /** That one succeeded and the row is Completed. */
  const PAID_LATE := THIRD.(
    rows := map[0 := Row("invitee", Completed, Some(3), 0)], watched := {W2},
    receipts := map[1 := false, 2 := false, 3 := true])

  lemma ReachFailed()
    ensures GoodReachable(FAILED)
  {
    ReachReverted();
    var a := GoodExtend(Init(0), REVERTED, WatchWrite(Verdict(W1, false)));
    assert a.rows == FAILED.rows && a.watched == {} && a.verdicts == {};
    assert a == FAILED;
  }

  lemma ReachFailedAgain()
    ensures GoodReachable(FAILED_AGAIN)
  {
    ReachFailed();
    GoodRetry(Init(0), FAILED, 0, 0, 2);
    var a := FAILED_AGAIN.(receipts := FAILED.receipts, verdicts := {});
    assert FAILED.rows[0 := FAILED.rows[0].(state := Submitted, rewardTxHash := Some(2))] == a.rows;
    assert FAILED.sent + {(0, 2)} == a.sent && FAILED.resent + {(0, 2)} == a.resent;
    assert FAILED.watched + {W2} == a.watched;
    GoodMine(a, 2, false);
    ObserveSecond(a);
  }

  lemma ObserveSecond(a: Sys)
    requires a == FAILED_AGAIN.(receipts := FAILED.receipts, verdicts := {})
    requires GoodReachable(a.(receipts := a.receipts[2 := false]))
    ensures GoodReachable(FAILED_AGAIN)
  {
    var b := FAILED_AGAIN.(verdicts := {});
    assert a.receipts[2 := false] == b.receipts;
    var c := GoodExtend(Init(0), b, Observe(W2));
    assert c.verdicts == {Verdict(W2, false)};
    assert c == FAILED_AGAIN;
  }

  /** Rewards are not retried only once: the next retry run finds the row still Submitted and sends a
      third transfer. */
  lemma RetriedTwice()
    ensures GoodReachable(THIRD) && HashesFor(THIRD.sent, 0) == {(0, 1), (0, 2), (0, 3)}
  {
    ReachFailedAgain();
    var s := FAILED_AGAIN;
    GoodRetry(Init(0), s, 0, 0, 3);
    assert s.rows[0 := s.rows[0].(state := Submitted, rewardTxHash := Some(3))] == THIRD.rows;
    assert s.sent + {(0, 3)} == THIRD.sent && s.resent + {(0, 3)} == THIRD.resent;
    assert s.watched + {W3} == THIRD.watched;
  }

  /** A good state in which k transfers were sent for the invite, under the hashes up to k, and a retry run
      may send the next. */
  ghost predicate ReadyAfter(s: Sys, k: nat) {
    && GoodReachable(s) && s.locks == map[]
    && 0 in s.rows && Retryable(s.rows[0], s.now) && RetryStatus(s.receipts, s.rows[0].rewardTxHash) == TxFailed
    && (forall p :: p in s.sent ==> p.1 <= k) && (forall h :: h in s.receipts ==> h <= k)
    && |HashesFor(s.sent, 0)| == k
  }

  lemma RetryOnceMore(s: Sys, k: nat) returns (t: Sys)
    requires ReadyAfter(s, k)
    ensures ReadyAfter(t, k + 1)
  {
    GoodRetry(Init(0), s, 0, 0, k + 1);
    var row := s.rows[0].(state := Submitted, rewardTxHash := Some(k + 1));
    var m := s.(rows := s.rows[0 := row], watched := s.watched + {WatchedInvite(0, 0, k + 1, true)},
                sent := s.sent + {(0, k + 1)}, resent := s.resent + {(0, k + 1)});
    GoodMine(m, k + 1, false);
    t := m.(receipts := m.receipts[k + 1 := false]);
    OneMore(s.sent, (0, k + 1), 0);
  }

  /** Nothing bounds the retries of a reward: for every n some good run sends n transfers for one invite. */
  lemma {:induction false} RetriesUnbounded(n: nat) returns (s: Sys)
    requires 0 < n
    ensures ReadyAfter(s, n)
  {
    if n == 1 {
      ReachFailed();
      s := FAILED;
      assert HashesFor(s.sent, 0) == {(0, 1)};
    } else {
      var m := RetriesUnbounded(n - 1);
      s := RetryOnceMore(m, n - 1);
    }
  }

  lemma ReachPaidLate()
    ensures GoodReachable(PAID_LATE)
  {
    RetriedTwice();
    GoodMine(THIRD, 3, true);
    var a := THIRD.(receipts := PAID_LATE.receipts);
    assert THIRD.receipts[3 := true] == a.receipts;
    var b := GoodExtend(Init(0), a, Observe(W3));
    assert b == a.(verdicts := {Verdict(W2, false), Verdict(W3, true)});
    SettlePaidLate(b);
  }

  lemma SettlePaidLate(b: Sys)
    requires b == THIRD.(receipts := PAID_LATE.receipts, verdicts := {Verdict(W2, false), Verdict(W3, true)})
    requires GoodReachable(b)
    ensures GoodReachable(PAID_LATE)
  {
    var c := GoodExtend(Init(0), b, WatchWrite(Verdict(W3, true)));
    assert c.verdicts == {Verdict(W2, false)} && c.watched == {W2} && c.rows == PAID_LATE.rows;
    assert c == PAID_LATE;
  }

  /** The watcher of the second transfer then marks the paid row DeadLettered, and nothing that any
      instance does afterwards makes it Completed again. */
  lemma PaidRowStaysDeadLettered() returns (s: Sys)
    ensures GoodReachable(s) && Paid(s, 0) && s.rows[0].state == DeadLettered
    ensures !Repairable(s, 0)
  {
    ReachPaidLate();
    var v := Verdict(W2, false);
    s := GoodExtend(Init(0), PAID_LATE, WatchWrite(v));
    assert s.watched == {} && s.verdicts == {};
    assert !RepairerLeft(s, 0);
    var steps :| GoodRun(Init(0), steps) && Exec(Init(0), steps) == Some(PAID_LATE);
    OverwrittenIsRepairableExactly(0, steps, v, 0);
  }
}
