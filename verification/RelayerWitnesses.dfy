/** Concrete runs of the relayer that show which hypotheses of the theorems cannot be dropped. */
module RelayerWitnesses {
  import opened Common
  import opened GasPricing
  import opened RelayerService
  import opened RelayerSystem
  import opened RelayerNonces
  import opened DistinctNonces
  import opened RelayerBroadcasts

  const CFG := Config(100.0, 10.0, 1.0, 1)

  ghost predicate Reachable(s0: Sys, s: Sys) {
    exists steps :: Exec(CFG, s0, steps) == Some(s)
  }

  lemma Extend(s0: Sys, s: Sys, step: Step) returns (t: Sys)
    requires Reachable(s0, s) && Next(CFG, s, step).Some?
    ensures t == Next(CFG, s, step).value && Reachable(s0, t)
  {
    t := Next(CFG, s, step).value;
    var steps :| Exec(CFG, s0, steps) == Some(s);
    assert (steps + [step])[..|steps|] == steps;
    assert Exec(CFG, s0, steps + [step]) == Some(t);
  }

  lemma ReachSelf(s0: Sys)
    ensures Reachable(s0, s0)
  {
    assert Exec(CFG, s0, []) == Some(s0);
  }

  /** Lets a pass over a single unmined item run until its Expired replacement is in flight. */
  lemma ExpireItem(s0: Sys, s: Sys, p: nat, h: TxHash, c: Cached) returns (t: Sys)
    requires Reachable(s0, s) && p in s.passes && s.passes[p] == Fetching(map[h := Some(c)])
    requires c.seenAt != 0 && s.now - c.seenAt > c.expireIn && c.gasPrice >= s.svc.gasPrice
    ensures Reachable(s0, t)
    ensures t == s.(passes := t.passes) && t.passes.Keys == s.passes.Keys
    ensures t.passes[p].Replacing? && t.passes[p].reason == Expired && t.passes[p].items == map[h := Some(c)]
    ensures t.passes[p].tasks ==
      map[h := Task(1, InFlight(ReplacementPrice(c.gasPrice, s.svc.gasPrice), s.svc.gasPrice))]
    ensures forall q :: q in s.passes && q != p ==> t.passes[q] == s.passes[q]
  {
    var items := map[h := Some(c)];
    var a := Extend(s0, s, Check(p, Summaries({})));
    assert a.passes[p] == Classified(items, {}, {});
    var b := Extend(s0, a, Check(p, Judge));
    assert h in b.passes[p].expired;
    assert b.passes[p] == Replacing(items, {}, b.passes[p].expired, GasTooLow, map[]);
    t := Extend(s0, b, Check(p, NextStage));
    assert t.passes[p].tasks.Keys == {h};
  }

  /** The same, up to and including the acceptance of the replacement. */
  lemma ReplaceExpired(s0: Sys, s: Sys, p: nat, h: TxHash, c: Cached) returns (t: Sys)
    requires Reachable(s0, s) && p in s.passes && s.passes[p] == Fetching(map[h := Some(c)])
    requires c.seenAt != 0 && s.now - c.seenAt > c.expireIn && c.gasPrice >= s.svc.gasPrice
    ensures Reachable(s0, t)
    ensures t.svc == Replace(s.svc, h, c, ReplacementPrice(c.gasPrice, s.svc.gasPrice), Expired, s.now)
    ensures t.now == s.now && t.passes.Keys == s.passes.Keys
    ensures forall q :: q in s.passes && q != p ==> t.passes[q] == s.passes[q]
  {
    var m := ExpireItem(s0, s, p, h, c);
    t := Extend(s0, m, Check(p, ReplaceOk(h)));
  }

  const POOLED := TxHash(5, 10, Request(0))

  /** A relayer that starts with one pending transaction, at time 1. */
  function OnePending(): Sys {
    Boot(CFG, Some(10.0), 6, [POOLED], 1)
  }

  lemma OnePendingIs()
    ensures OnePending().svc == Service(6, 10.0, {POOLED}, map[POOLED := PoolEntry(POOLED, 1, 1)])
    ensures OnePending().passes == map[] && OnePending().now == 1
  {
    var blank := Service(6, 10.0, {}, map[]);
    assert [POOLED][..0] == [];
    assert WatchPool(blank, [POOLED], 1, 1) == Watch(WatchPool(blank, [], 1, 1), POOLED, PoolEntry(POOLED, 1, 1));
  }

  lemma StartSingle(s0: Sys, s: Sys, p: nat, h: TxHash, c: Cached) returns (t: Sys)
    requires Reachable(s0, s) && p !in s.passes && s.svc.watched == {h} && s.svc.cache == map[h := c]
    ensures Reachable(s0, t) && t == s.(passes := s.passes[p := Fetching(map[h := Some(c)])])
  {
    t := Extend(s0, s, Check(p, Start));
    assert Snapshot(s.svc) == map[h := Some(c)];
  }

  const FIRST_LETTER := TxHash(5, 14, SelfTransfer)
  const SECOND_LETTER := TxHash(5, 20, SelfTransfer)

  /** Two passes took the same snapshot, and the first of them has replaced the transaction. */
  lemma ReplacedBesideStalePass() returns (s: Sys)
    ensures Reachable(OnePending(), s) && s.now == 3 && s.passes.Keys == {0, 1}
    ensures s.passes[1] == Fetching(map[POOLED := Some(PoolEntry(POOLED, 1, 1))])
    ensures s.svc == Service(6, 10.0, {FIRST_LETTER},
                             map[FIRST_LETTER := ReplacementEntry(PoolEntry(POOLED, 1, 1), 14.0, Expired, 3)])
  {
    var s0 := OnePending();
    OnePendingIs();
    ReachSelf(s0);
    var c0 := PoolEntry(POOLED, 1, 1);
    var a := Extend(s0, s0, Clock(2));
    var b := StartSingle(s0, a, 0, POOLED, c0);
    var d := StartSingle(s0, b, 1, POOLED, c0);
    s := ReplaceExpired(s0, d, 0, POOLED, c0);
    ToWeiIs(14.0, 14);
  }

  /** With overlapping passes two watched transactions can share a nonce, even at a constant gas
      price: a stale pass replaces the original again after a later pass has replaced the
      replacement. */
  lemma OverlapSharesNonce() returns (s: Sys, h: TxHash, g: TxHash)
    ensures Reachable(OnePending(), s) && s.svc.gasPrice == OnePending().svc.gasPrice
    ensures h in s.svc.watched && g in s.svc.watched && h != g && h.nonce == g.nonce
    ensures !DistinctWatched(s.svc)
  {
    var s0 := OnePending();
    OnePendingIs();
    var c0 := PoolEntry(POOLED, 1, 1);
    var c1 := ReplacementEntry(c0, 14.0, Expired, 3);
    var e := ReplacedBesideStalePass();
    var f := Extend(s0, e, Clock(3));
    var k := StartSingle(s0, f, 2, FIRST_LETTER, c1);
    var m := ReplaceExpired(s0, k, 2, FIRST_LETTER, c1);
    ToWeiIs(14.0, 14);
    ToWeiIs(19.6, 20);
    assert m.svc.watched == {SECOND_LETTER};
    s := ReplaceExpired(s0, m, 1, POOLED, c0);
    h, g := FIRST_LETTER, SECOND_LETTER;
  }

  /** The pending transaction is replaced as GasTooLow while it is also listed as expired. */
  lemma ReplacedAsTooLow() returns (s: Sys)
    ensures Reachable(OnePending(), s) && s.svc.watched == {TxHash(5, 20, SelfTransfer)} && s.passes.Keys == {0}
    ensures s.passes[0].Replacing? && s.passes[0].reason == GasTooLow && AllSettled(s.passes[0].tasks)
    ensures s.passes[0].items == map[POOLED := Some(PoolEntry(POOLED, 1, 1))] && POOLED in s.passes[0].expired
  {
    var s0 := OnePending();
    OnePendingIs();
    ReachSelf(s0);
    var c0 := PoolEntry(POOLED, 1, 1);
    var a := Extend(s0, s0, Clock(2));
    var b := Extend(s0, a, GasTick(Some(20.0)));
    var c := StartSingle(s0, b, 0, POOLED, c0);
    var d := Extend(s0, c, Check(0, Summaries({})));
    assert d.passes[0].low == {POOLED};
    var e := Extend(s0, d, Check(0, Judge));
    assert e.passes[0].tasks == map[POOLED := Task(1, InFlight(20.0, 20.0))];
    ToWeiIs(20.0, 20);
    s := Extend(s0, e, Check(0, ReplaceOk(POOLED)));
  }

  /** With a gas price that moves within a pass two watched transactions can share a nonce, even
      without overlap: the item is replaced as GasTooLow at one price and as Expired at another. */
  lemma PriceMoveSharesNonce() returns (s: Sys, h: TxHash, g: TxHash)
    ensures Reachable(OnePending(), s) && s.passes.Keys == {0}
    ensures h in s.svc.watched && g in s.svc.watched && h != g && h.nonce == g.nonce
    ensures !DistinctWatched(s.svc)
  {
    var s0 := OnePending();
    var a := ReplacedAsTooLow();
    var b := Extend(s0, a, GasTick(Some(50.0)));
    var c := Extend(s0, b, Check(0, NextStage));
    assert c.passes[0].tasks[POOLED] == Task(1, InFlight(50.0, 50.0));
    s := Extend(s0, c, Check(0, ReplaceOk(POOLED)));
    ToWeiIs(50.0, 50);
    h, g := TxHash(5, 20, SelfTransfer), TxHash(5, 50, SelfTransfer);
    assert g in s.svc.watched;
  }

  function NonePending(): Sys {
    Boot(CFG, Some(100.0), 5, [], 1)
  }

  /** The cached price is read again after the send, so it can lag behind the broadcast price, and
      the dead letter then bids less than the transaction it should replace. */
  lemma LaggingPriceUnderbids() returns (s: Sys, h: TxHash, g: TxHash)
    ensures Reachable(NonePending(), s)
    ensures h.nonce == g.nonce && g in s.svc.cache && s.svc.cache[g].origin.Replacement?
    ensures ToWei(s.svc.cache[g].origin.parent.gasPrice) != h.price && g.price < h.price
  {
    var s0 := NonePending();
    ReachSelf(s0);
    var a := Extend(s0, s0, Submit(0, Begin(7)));
    var b := Extend(s0, a, Submit(0, Acquire));
    var c := Extend(s0, b, GasTick(Some(50.0)));
    var d := Extend(s0, c, Submit(0, SendOk));
    ToWeiIs(100.0, 100);
    h := TxHash(5, 100, Request(7));
    var e := Extend(s0, d, Submit(0, WatchSent));
    var c0 := Cached(5, 50.0, 1, 1, Submitted);
    assert e.svc == Service(6, 50.0, {h}, map[h := c0]);
    var f := Extend(s0, e, Clock(2));
    var k := StartSingle(s0, f, 0, h, c0);
    s := ReplaceExpired(s0, k, 0, h, c0);
    ToWeiIs(70.0, 70);
    ToWeiIs(50.0, 50);
    g := TxHash(5, 70, SelfTransfer);
  }

  /** One acknowledged submission, and a second one that the node called too low. */
  lemma SecondTooLow() returns (s: Sys)
    ensures Reachable(NonePending(), s) && s.lock == None && s.svc.nonce == 6 && s.log == [Reset(5), Accepted(0, 5)]
    ensures 1 in s.submitters && s.submitters[1] == Submitter(8, 1, WantsReset)
  {
    var s0 := NonePending();
    ReachSelf(s0);
    var a := Extend(s0, s0, Submit(0, Begin(7)));
    var b := Extend(s0, a, Submit(0, Acquire));
    var c := Extend(s0, b, Submit(0, SendOk));
    var d := Extend(s0, c, Submit(1, Begin(8)));
    var e := Extend(s0, d, Submit(1, Acquire));
    s := Extend(s0, e, Submit(1, SendFail(NonceTooLow, false)));
  }

  /** A reset that reports a count at or below an acknowledged nonce makes that nonce serve two
      submissions. */
  lemma StaleResetReusesNonce() returns (s: Sys)
    ensures Reachable(NonePending(), s) && !SoundResets(s.log) && !NoReuse(s.log)
    ensures s.log == [Reset(5), Accepted(0, 5), Reset(5), Accepted(1, 5)]
  {
    var s0 := NonePending();
    var f := SecondTooLow();
    var g := Extend(s0, f, Submit(1, AcquireReset));
    var h := Extend(s0, g, Submit(1, ResetOk(5)));
    var i := Extend(s0, h, Submit(1, Acquire));
    s := Extend(s0, i, Submit(1, SendOk));
    assert s.log[1].nonce == 5 && s.log[2].count == 5 && s.log[3].nonce == 5;
  }

  /** A send was rejected as nonce too low although it was broadcast, and the counter has been reset to
      the count that includes it. */
  lemma LeakedAndReset() returns (s: Sys)
    ensures Reachable(NonePending(), s) && s.lock == None && s.svc.nonce == 6
    ensures s.broadcasts == [Broadcast(0, 5, false)]
    ensures 0 in s.submitters && s.submitters[0] == Submitter(7, 2, Waiting)
  {
    var s0 := NonePending();
    ReachSelf(s0);
    var a := Extend(s0, s0, Submit(0, Begin(7)));
    var b := Extend(s0, a, Submit(0, Acquire));
    var c := Extend(s0, b, Submit(0, SendFail(NonceTooLow, true)));
    var d := Extend(s0, c, Submit(0, AcquireReset));
    s := Extend(s0, d, Submit(0, ResetOk(6)));
  }

  /** The retry then sends the same request once more, under the next nonce, and both may be mined. */
  lemma LeakedSendTwoNonces() returns (s: Sys)
    ensures Reachable(NonePending(), s) && !OneNonce(s, 0)
    ensures s.broadcasts == [Broadcast(0, 5, false), Broadcast(0, 6, true)]
  {
    var e := LeakedAndReset();
    var f := Extend(NonePending(), e, Submit(0, Acquire));
    s := Extend(NonePending(), f, Submit(0, SendOk));
    TwoBroadcasts(Broadcast(0, 5, false), Broadcast(0, 6, true));
  }

  lemma TwoBroadcasts(b: Broadcast, c: Broadcast)
    requires b.submitter == c.submitter
    ensures BroadcastsOf([b, c], b.submitter) == [b, c]
  {
    BroadcastsAppend([], b, b.submitter);
    BroadcastsAppend([b], c, b.submitter);
    assert [] + [b] == [b] && [b] + [c] == [b, c];
  }
}
