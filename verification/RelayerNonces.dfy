/** Nonce safety of the relayer over every run: which nonces are handed out, that each stays
    accounted for, and that a snapshot never lacks cached data. */
module RelayerNonces {
  import opened Common
  import opened GasPricing
  import opened RelayerService
  import opened RelayerSystem

  /** The nonce the log prescribes for the next send: the last reset plus the sends since. */
  function NextNonce(log: seq<LogEntry>): int {
    if log == [] then 0
    else
      var last := log[|log| - 1];
      if last.Reset? then last.count else NextNonce(log[..|log| - 1]) + 1
  }

  ghost predicate LogConsistent(log: seq<LogEntry>) {
    forall k :: 0 <= k < |log| && log[k].Accepted? ==> log[k].nonce == NextNonce(log[..k])
  }

  ghost predicate CacheOk(svc: Service) {
    && svc.watched == svc.cache.Keys
    && forall h :: h in svc.cache ==> svc.cache[h].nonce == h.nonce
  }

  ghost predicate ItemsOk(items: Items) {
    forall h :: h in items ==> items[h].Some? && items[h].value.nonce == h.nonce
  }

  ghost predicate HoldsLock(phase: SubmitPhase) {
    phase.Sending? || phase.Resetting?
  }

  ghost predicate LockOk(s: Sys) {
    && (forall id :: id in s.submitters && HoldsLock(s.submitters[id].phase) ==> s.lock == Some(id))
    && (s.lock.Some? ==> s.lock.value in s.submitters && HoldsLock(s.submitters[s.lock.value].phase))
  }

  ghost predicate SubmitterOk(s: Sys, a: Submitter) {
    && (a.phase.Sending? ==> a.phase.nonce == s.svc.nonce)
    && (a.phase.Sent? ==> a.phase.hash.nonce == a.phase.nonce)
  }

  /** A nonce that is accounted for: about to be watched, watched, confirmed by a receipt, or
      reported as used by the node. */
  ghost predicate Held(s: Sys, nonce: int) {
    || nonce in s.finalised
    || nonce in s.tooLow
    || (exists id :: id in s.submitters && s.submitters[id].phase.Sent? && s.submitters[id].phase.nonce == nonce)
    || (exists h :: h in s.svc.watched && h.nonce == nonce)
  }

  ghost predicate Inv(s: Sys) {
    && CacheOk(s.svc)
    && (forall p :: p in s.passes ==> ItemsOk(s.passes[p].items))
    && LockOk(s)
    && (forall id :: id in s.submitters ==> SubmitterOk(s, s.submitters[id]))
    && s.svc.nonce == NextNonce(s.log)
    && LogConsistent(s.log)
    && (forall k :: 0 <= k < |s.log| && s.log[k].Accepted? ==> Held(s, s.log[k].nonce))
  }

  lemma BootInv(cfg: Config, raw: Option<real>, count: int, pool: seq<TxHash>, now: int)
    ensures Inv(Boot(cfg, raw, count, pool, now))
  {
    WatchPoolContents(Service(count, UpdatedPrice(cfg, cfg.fallback, raw), {}, map[]), pool, now, cfg.timeoutMs);
  }

  lemma AppendKeepsLog(log: seq<LogEntry>, e: LogEntry)
    requires LogConsistent(log)
    requires e.Accepted? ==> e.nonce == NextNonce(log)
    ensures LogConsistent(log + [e])
    ensures NextNonce(log + [e]) == if e.Reset? then e.count else NextNonce(log) + 1
  {
    var grown := log + [e];
    assert grown[..|log|] == log;
    forall k | 0 <= k < |grown| && grown[k].Accepted?
      ensures grown[k].nonce == NextNonce(grown[..k])
    {
      if k < |log| {
        assert grown[..k] == log[..k];
      }
    }
  }

  /** Holding carries over when everything held before is held after. */
  ghost predicate KeepsHolding(s: Sys, t: Sys) {
    forall n :: Held(s, n) ==> Held(t, n)
  }

  lemma SubmitKeepsHolding(cfg: Config, s: Sys, id: nat, act: SubmitAct)
    requires Inv(s) && NextSubmit(cfg, s, id, act).Some?
    ensures KeepsHolding(s, NextSubmit(cfg, s, id, act).value)
  {
    var t := NextSubmit(cfg, s, id, act).value;
    forall n | Held(s, n)
      ensures Held(t, n)
    {
      if h :| h in s.svc.watched && h.nonce == n {
        assert h in t.svc.watched;
      } else if j :| j in s.submitters && s.submitters[j].phase.Sent? && s.submitters[j].phase.nonce == n {
        if j == id && act.WatchSent? {
          assert s.submitters[j].phase.hash in t.svc.watched;
        } else {
          assert j in t.submitters && t.submitters[j].phase == s.submitters[j].phase;
        }
      }
    }
  }

  lemma SubmitKeepsLock(cfg: Config, s: Sys, id: nat, act: SubmitAct)
    requires Inv(s) && NextSubmit(cfg, s, id, act).Some?
    ensures LockOk(NextSubmit(cfg, s, id, act).value)
  {
  }

  lemma SubmitKeepsSubmitters(cfg: Config, s: Sys, id: nat, act: SubmitAct)
    requires Inv(s) && NextSubmit(cfg, s, id, act).Some?
    ensures var t := NextSubmit(cfg, s, id, act).value;
      forall j :: j in t.submitters ==> SubmitterOk(t, t.submitters[j])
  {
  }

  lemma SubmitKeepsService(cfg: Config, s: Sys, id: nat, act: SubmitAct)
    requires Inv(s) && NextSubmit(cfg, s, id, act).Some?
    ensures var t := NextSubmit(cfg, s, id, act).value;
      && CacheOk(t.svc) && t.passes == s.passes
      && t.svc.nonce == NextNonce(t.log) && LogConsistent(t.log)
      && (t.log == s.log || (|t.log| == |s.log| + 1 && t.log[..|s.log|] == s.log
          && (t.log[|s.log|].Accepted? ==> Held(t, t.log[|s.log|].nonce))))
  {
    var t := NextSubmit(cfg, s, id, act).value;
    if act.SendOk? {
      assert SubmitterOk(s, s.submitters[id]);
      var e := Accepted(id, s.submitters[id].phase.nonce);
      AppendKeepsLog(s.log, e);
      assert t.submitters[id].phase.Sent? && t.submitters[id].phase.nonce == e.nonce;
    } else if act.ResetOk? {
      AppendKeepsLog(s.log, Reset(act.count));
    }
  }

  lemma SubmitKeepsInv(cfg: Config, s: Sys, id: nat, act: SubmitAct)
    requires Inv(s) && NextSubmit(cfg, s, id, act).Some?
    ensures Inv(NextSubmit(cfg, s, id, act).value)
  {
    SubmitKeepsHolding(cfg, s, id, act);
    SubmitKeepsLock(cfg, s, id, act);
    SubmitKeepsSubmitters(cfg, s, id, act);
    SubmitKeepsService(cfg, s, id, act);
  }

  predicate IsTaskAct(act: CheckAct) {
    act.ReplaceOk? || act.ReplaceFail? || act.Repriced?
  }

  /** The three ways a dead-letter step can change the watched set: not at all, by dropping the item
      (nonce too low), or by replacing it. */
  ghost predicate TaskMoves(s: Sys, t: Sys, p: nat, h: TxHash) {
    && p in s.passes && HasTask(s.passes[p], h)
    && t.submitters == s.submitters && t.lock == s.lock && t.log == s.log && t.finalised == s.finalised
    && t.svc.nonce == s.svc.nonce
    && t.passes.Keys == s.passes.Keys
    && (forall q :: q in s.passes ==> t.passes[q].items == s.passes[q].items)
    && var c := s.passes[p].items[h].value;
       || (t.svc.watched == s.svc.watched && t.svc.cache == s.svc.cache
           && t.tooLow == s.tooLow && t.replacements == s.replacements)
       || (t.svc == Unwatch(s.svc, h) && t.tooLow == s.tooLow + {c.nonce} && t.replacements == s.replacements)
       || exists price, reason ::
            && t.svc == Replace(s.svc, h, c, price, reason, s.now) && t.tooLow == s.tooLow
            && t.replacements == s.replacements + [ReplacementHash(c, price)]
  }

  lemma TaskDoesMove(cfg: Config, s: Sys, p: nat, act: CheckAct, h: TxHash)
    requires p in s.passes && HasTask(s.passes[p], h) && NextTask(cfg, s, p, act, h).Some?
    ensures TaskMoves(s, NextTask(cfg, s, p, act, h).value, p, h)
  {
    var t := NextTask(cfg, s, p, act, h).value;
    if act.ReplaceOk? {
      assert t.svc == Replace(s.svc, h, s.passes[p].items[h].value, s.passes[p].tasks[h].attempt.price,
                              s.passes[p].reason, s.now);
    }
  }

  lemma TaskKeepsInv(cfg: Config, s: Sys, p: nat, act: CheckAct, h: TxHash)
    requires Inv(s) && p in s.passes && HasTask(s.passes[p], h) && NextTask(cfg, s, p, act, h).Some?
    ensures Inv(NextTask(cfg, s, p, act, h).value)
  {
    TaskDoesMove(cfg, s, p, act, h);
    MovesKeepInv(s, NextTask(cfg, s, p, act, h).value, p, h);
  }

  lemma MovesKeepInv(s: Sys, t: Sys, p: nat, h: TxHash)
    requires Inv(s) && TaskMoves(s, t, p, h)
    ensures Inv(t)
  {
  }

  lemma StageKeepsInv(cfg: Config, s: Sys, p: nat, act: CheckAct)
    requires Inv(s) && NextCheck(cfg, s, p, act).Some? && !IsTaskAct(act) && !act.Confirm?
    ensures Inv(NextCheck(cfg, s, p, act).value)
  {
  }

  lemma ConfirmKeepsInv(cfg: Config, s: Sys, p: nat, receipts: set<TxHash>)
    requires Inv(s) && NextCheck(cfg, s, p, Confirm(receipts)).Some?
    ensures Inv(NextCheck(cfg, s, p, Confirm(receipts)).value)
  {
  }

  lemma CheckKeepsInv(cfg: Config, s: Sys, p: nat, act: CheckAct)
    requires Inv(s) && NextCheck(cfg, s, p, act).Some?
    ensures Inv(NextCheck(cfg, s, p, act).value)
  {
    if IsTaskAct(act) {
      TaskKeepsInv(cfg, s, p, act, act.hash);
    } else if act.Confirm? {
      ConfirmKeepsInv(cfg, s, p, act.receipts);
    } else {
      StageKeepsInv(cfg, s, p, act);
    }
  }

  lemma StepKeepsInv(cfg: Config, s: Sys, step: Step)
    requires Inv(s) && Next(cfg, s, step).Some?
    ensures Inv(Next(cfg, s, step).value)
  {
    match step
    case Submit(id, act) => SubmitKeepsInv(cfg, s, id, act);
    case Check(p, act) => CheckKeepsInv(cfg, s, p, act);
    case _ =>
      var t := Next(cfg, s, step).value;
      assert forall n :: Held(s, n) ==> Held(t, n);
  }

  lemma {:induction false} RunKeepsInv(cfg: Config, s: Sys, steps: seq<Step>)
    requires Inv(s) && Exec(cfg, s, steps).Some?
    ensures Inv(Exec(cfg, s, steps).value)
  {
    if steps == [] {
    } else {
      RunKeepsInv(cfg, s, steps[..|steps| - 1]);
      StepKeepsInv(cfg, Exec(cfg, s, steps[..|steps| - 1]).value, steps[|steps| - 1]);
    }
  }

  /** No nonce is dropped: whatever interleaves, every acknowledged nonce is about to be watched,
      is held by a watched entry, has a receipt, or was reported too low by the node. */
  lemma NoNonceDropped(cfg: Config, raw: Option<real>, count: int, pool: seq<TxHash>, now: int,
                       steps: seq<Step>, k: nat)
    requires Exec(cfg, Boot(cfg, raw, count, pool, now), steps).Some?
    requires var s := Exec(cfg, Boot(cfg, raw, count, pool, now), steps).value;
      k < |s.log| && s.log[k].Accepted?
    ensures var s := Exec(cfg, Boot(cfg, raw, count, pool, now), steps).value;
      Held(s, s.log[k].nonce)
  {
    BootInv(cfg, raw, count, pool, now);
    RunKeepsInv(cfg, Boot(cfg, raw, count, pool, now), steps);
  }

  /** The watched set is always the cache's key set, every cached nonce is the nonce of its own
      transaction, and no summary of any pass, however stale, lacks cached data. */
  lemma SnapshotsComplete(cfg: Config, raw: Option<real>, count: int, pool: seq<TxHash>, now: int,
                          steps: seq<Step>)
    requires Exec(cfg, Boot(cfg, raw, count, pool, now), steps).Some?
    ensures var s := Exec(cfg, Boot(cfg, raw, count, pool, now), steps).value;
      && s.svc.watched == s.svc.cache.Keys
      && (forall h :: h in s.svc.cache ==> s.svc.cache[h].nonce == h.nonce)
      && (forall p, h :: p in s.passes && h in s.passes[p].items ==> s.passes[p].items[h].Some?)
      && (forall id :: id in s.submitters && s.submitters[id].phase.Sent? ==>
            s.submitters[id].phase.hash.nonce == s.submitters[id].phase.nonce)
  {
    BootInv(cfg, raw, count, pool, now);
    RunKeepsInv(cfg, Boot(cfg, raw, count, pool, now), steps);
  }

  ghost predicate NoResetBetween(log: seq<LogEntry>, i: int, j: int)
    requires 0 <= i <= j <= |log|
  {
    forall k :: i <= k < j ==> log[k].Accepted?
  }

  lemma {:induction false} NextNonceAcross(log: seq<LogEntry>, i: nat, j: nat)
    requires i <= j <= |log| && NoResetBetween(log, i, j)
    ensures NextNonce(log[..j]) == NextNonce(log[..i]) + (j - i)
    decreases j
  {
    if i == j {
    } else {
      NextNonceAcross(log, i, j - 1);
      assert log[..j][..j - 1] == log[..j - 1];
    }
  }

  lemma ConsecutiveInLog(log: seq<LogEntry>, i: nat, j: nat)
    requires LogConsistent(log) && i < j < |log| && log[j].Accepted? && NoResetBetween(log, i + 1, j)
    ensures log[j].nonce == if log[i].Accepted? then log[i].nonce + (j - i) else log[i].count + (j - i - 1)
  {
    NextNonceAcross(log, i + 1, j);
    assert log[..i + 1][..i] == log[..i];
  }

  /** Between two resets the acknowledged sends use consecutive nonces, in order, without a gap or
      a repeat, and the first send after a reset uses the count the node reported. */
  lemma ConsecutiveNonces(cfg: Config, raw: Option<real>, count: int, pool: seq<TxHash>, now: int,
                          steps: seq<Step>, i: nat, j: nat)
    requires Exec(cfg, Boot(cfg, raw, count, pool, now), steps).Some?
    requires var log := Exec(cfg, Boot(cfg, raw, count, pool, now), steps).value.log;
      && i < j < |log| && log[j].Accepted? && NoResetBetween(log, i + 1, j)
    ensures var log := Exec(cfg, Boot(cfg, raw, count, pool, now), steps).value.log;
      log[j].nonce == if log[i].Accepted? then log[i].nonce + (j - i) else log[i].count + (j - i - 1)
  {
    BootInv(cfg, raw, count, pool, now);
    RunKeepsInv(cfg, Boot(cfg, raw, count, pool, now), steps);
    ConsecutiveInLog(Exec(cfg, Boot(cfg, raw, count, pool, now), steps).value.log, i, j);
  }

  /** Every reset that a send follows directly reported a count above all nonces acknowledged before. */
  ghost predicate SoundResets(log: seq<LogEntry>) {
    forall j, k :: 0 <= j < k < |log| - 1 && log[j].Accepted? && log[k].Reset? && log[k + 1].Accepted? ==>
      log[j].nonce < log[k].count
  }

  /** No nonce is acknowledged twice, and later sends use higher ones. */
  ghost predicate Increasing(log: seq<LogEntry>) {
    forall i, j :: 0 <= i < j < |log| && log[i].Accepted? && log[j].Accepted? ==> log[i].nonce < log[j].nonce
  }

  lemma AcceptedIsNext(log: seq<LogEntry>, k: nat)
    requires LogConsistent(log) && 0 < k < |log| && log[k].Accepted?
    ensures log[k].nonce == if log[k - 1].Reset? then log[k - 1].count else log[k - 1].nonce + 1
  {
    assert log[..k][..k - 1] == log[..k - 1];
  }

  lemma {:induction false} SoundMeansIncreasing(log: seq<LogEntry>, i: nat, j: nat)
    requires LogConsistent(log) && SoundResets(log)
    requires i < j < |log| && log[i].Accepted? && log[j].Accepted?
    ensures log[i].nonce < log[j].nonce
    decreases j
  {
    AcceptedIsNext(log, j);
    if log[j - 1].Accepted? && i < j - 1 {
      SoundMeansIncreasing(log, i, j - 1);
    }
  }

  /** A log is increasing exactly when its resets are sound. */
  lemma IncreasingExactly(log: seq<LogEntry>)
    requires LogConsistent(log)
    ensures Increasing(log) <==> SoundResets(log)
  {
    if SoundResets(log) {
      forall i, j | 0 <= i < j < |log| && log[i].Accepted? && log[j].Accepted?
        ensures log[i].nonce < log[j].nonce
      {
        SoundMeansIncreasing(log, i, j);
      }
    }
    if Increasing(log) {
      forall j, k | 0 <= j < k < |log| - 1 && log[j].Accepted? && log[k].Reset? && log[k + 1].Accepted?
        ensures log[j].nonce < log[k].count
      {
        AcceptedIsNext(log, k + 1);
        assert log[j].nonce < log[k + 1].nonce;
      }
    }
  }

  /** No nonce ever serves two submissions, and they come in order, exactly when every reset that a send
      follows directly reported a count above all nonces acknowledged before it. */
  lemma NonceOrderExactly(cfg: Config, raw: Option<real>, count: int, pool: seq<TxHash>, now: int, steps: seq<Step>)
    requires Exec(cfg, Boot(cfg, raw, count, pool, now), steps).Some?
    ensures var log := Exec(cfg, Boot(cfg, raw, count, pool, now), steps).value.log;
      Increasing(log) <==> SoundResets(log)
  {
    BootInv(cfg, raw, count, pool, now);
    RunKeepsInv(cfg, Boot(cfg, raw, count, pool, now), steps);
    IncreasingExactly(Exec(cfg, Boot(cfg, raw, count, pool, now), steps).value.log);
  }

  /** No nonce is acknowledged twice. */
  ghost predicate NoReuse(log: seq<LogEntry>) {
    forall i, j :: 0 <= i < j < |log| && log[i].Accepted? && log[j].Accepted? ==> log[i].nonce != log[j].nonce
  }

  /** The number of acknowledged sends that directly follow entry k - 1. */
  function Served(log: seq<LogEntry>, k: nat): nat
    requires k <= |log|
    decreases |log| - k
  {
    if k < |log| && log[k].Accepted? then 1 + Served(log, k + 1) else 0
  }

  /** The nonces that a reset went on to hand out had not been acknowledged before it. */
  ghost predicate DisjointResets(log: seq<LogEntry>) {
    forall j, k :: 0 <= j < k < |log| && log[j].Accepted? && log[k].Reset? ==>
      !(log[k].count <= log[j].nonce < log[k].count + Served(log, k + 1))
  }

  lemma {:induction false} ServedNonces(log: seq<LogEntry>, k: nat, n: nat)
    requires LogConsistent(log) && k < |log| && log[k].Reset? && n < Served(log, k + 1)
    ensures k + 1 + n < |log| && log[k + 1 + n].Accepted? && log[k + 1 + n].nonce == log[k].count + n
    ensures Served(log, k + 1) == n + Served(log, k + 1 + n)
    decreases n
  {
    AcceptedIsNext(log, k + 1);
    if n > 0 {
      ServedNonces(log, k, n - 1);
      AcceptedIsNext(log, k + 1 + n);
    }
  }

  /** The reset that an acknowledged send goes back to, for a log that starts with one. */
  lemma {:induction false} ServedBy(log: seq<LogEntry>, j: nat) returns (k: nat)
    requires LogConsistent(log) && j < |log| && log[j].Accepted? && log[0].Reset?
    ensures k < j && log[k].Reset? && NoResetBetween(log, k + 1, j)
    ensures log[j].nonce == log[k].count + (j - k - 1) && Served(log, k + 1) == j - k - 1 + Served(log, j)
    decreases j
  {
    AcceptedIsNext(log, j);
    if log[j - 1].Reset? {
      k := j - 1;
    } else {
      k := ServedBy(log, j - 1);
    }
  }

  lemma {:induction false} RisesWithoutReset(log: seq<LogEntry>, i: nat, j: nat)
    requires LogConsistent(log) && i < j < |log| && log[i].Accepted? && log[j].Accepted? && NoResetBetween(log, i, j)
    ensures log[i].nonce < log[j].nonce
    decreases j
  {
    AcceptedIsNext(log, j);
    if i < j - 1 {
      RisesWithoutReset(log, i, j - 1);
    }
  }

  lemma DisjointMeansNoReuse(log: seq<LogEntry>, i: nat, j: nat)
    requires LogConsistent(log) && DisjointResets(log) && log != [] && log[0].Reset?
    requires i < j < |log| && log[i].Accepted? && log[j].Accepted?
    ensures log[i].nonce != log[j].nonce
  {
    var k := ServedBy(log, j);
    if i < k {
      assert Served(log, j) > 0;
    } else {
      RisesWithoutReset(log, i, j);
    }
  }

  lemma NoReuseMeansDisjoint(log: seq<LogEntry>, j: nat, k: nat)
    requires LogConsistent(log) && NoReuse(log)
    requires j < k < |log| && log[j].Accepted? && log[k].Reset?
    ensures !(log[k].count <= log[j].nonce < log[k].count + Served(log, k + 1))
  {
    var n := log[j].nonce - log[k].count;
    if 0 <= n < Served(log, k + 1) {
      ServedNonces(log, k, n);
    }
  }

  lemma NoReuseExactly(log: seq<LogEntry>)
    requires LogConsistent(log) && log != [] && log[0].Reset?
    ensures NoReuse(log) <==> DisjointResets(log)
  {
    if DisjointResets(log) {
      forall i, j | 0 <= i < j < |log| && log[i].Accepted? && log[j].Accepted?
        ensures log[i].nonce != log[j].nonce
      {
        DisjointMeansNoReuse(log, i, j);
      }
    }
    if NoReuse(log) {
      forall j, k | 0 <= j < k < |log| && log[j].Accepted? && log[k].Reset?
        ensures !(log[k].count <= log[j].nonce < log[k].count + Served(log, k + 1))
      {
        NoReuseMeansDisjoint(log, j, k);
      }
    }
  }

  lemma LogGrows(cfg: Config, s: Sys, step: Step)
    requires Next(cfg, s, step).Some?
    ensures s.log <= Next(cfg, s, step).value.log
  {
  }

  lemma {:induction false} LogStartsWithReset(cfg: Config, s: Sys, steps: seq<Step>)
    requires s.log != [] && s.log[0].Reset? && Exec(cfg, s, steps).Some?
    ensures var log := Exec(cfg, s, steps).value.log; log != [] && log[0].Reset?
  {
    if steps == [] {
    } else {
      LogStartsWithReset(cfg, s, steps[..|steps| - 1]);
      LogGrows(cfg, Exec(cfg, s, steps[..|steps| - 1]).value, steps[|steps| - 1]);
    }
  }

  /** No nonce ever serves two submissions in a run exactly when no reset goes on to hand out a nonce
      that was acknowledged before it. */
  lemma NoNonceReused(cfg: Config, raw: Option<real>, count: int, pool: seq<TxHash>, now: int, steps: seq<Step>)
    requires Exec(cfg, Boot(cfg, raw, count, pool, now), steps).Some?
    ensures var log := Exec(cfg, Boot(cfg, raw, count, pool, now), steps).value.log;
      NoReuse(log) <==> DisjointResets(log)
  {
    BootInv(cfg, raw, count, pool, now);
    RunKeepsInv(cfg, Boot(cfg, raw, count, pool, now), steps);
    LogStartsWithReset(cfg, Boot(cfg, raw, count, pool, now), steps);
    NoReuseExactly(Exec(cfg, Boot(cfg, raw, count, pool, now), steps).value.log);
  }

  /** The nonces that were pending at start-up or acknowledged during the run. */
  function Allocated(pool: seq<TxHash>, log: seq<LogEntry>): set<int> {
    (set h | h in pool :: h.nonce) + (set e | e in log && e.Accepted? :: e.nonce)
  }

  /** Every nonce the relayer still refers to, or ever reused, lies in `nonces`. */
  ghost predicate NoncesWithin(nonces: set<int>, s: Sys) {
    && (forall h :: h in s.svc.watched ==> h.nonce in nonces)
    && (forall p, h :: p in s.passes && h in s.passes[p].items ==> h.nonce in nonces)
    && (forall id :: id in s.submitters && s.submitters[id].phase.Sent? ==>
          s.submitters[id].phase.hash.nonce in nonces)
    && (forall h :: h in s.replacements ==> h.nonce in nonces)
  }

  ghost predicate AllocInv(pool: seq<TxHash>, s: Sys) {
    NoncesWithin(Allocated(pool, s.log), s)
  }

  lemma SubmitKeepsAlloc(cfg: Config, nonces: set<int>, s: Sys, id: nat, act: SubmitAct)
    requires Inv(s) && NoncesWithin(nonces, s) && NextSubmit(cfg, s, id, act).Some?
    requires act.SendOk? ==> s.svc.nonce in nonces
    ensures NoncesWithin(nonces, NextSubmit(cfg, s, id, act).value)
  {
    if act.SendOk? {
      assert SubmitterOk(s, s.submitters[id]);
    }
  }

  lemma MovesKeepAlloc(nonces: set<int>, s: Sys, t: Sys, p: nat, h: TxHash)
    requires Inv(s) && NoncesWithin(nonces, s) && TaskMoves(s, t, p, h)
    ensures NoncesWithin(nonces, t)
  {
  }

  lemma CheckKeepsAlloc(cfg: Config, nonces: set<int>, s: Sys, p: nat, act: CheckAct)
    requires Inv(s) && NoncesWithin(nonces, s) && NextCheck(cfg, s, p, act).Some?
    ensures NoncesWithin(nonces, NextCheck(cfg, s, p, act).value)
  {
    if IsTaskAct(act) {
      TaskDoesMove(cfg, s, p, act, act.hash);
      MovesKeepAlloc(nonces, s, NextTask(cfg, s, p, act, act.hash).value, p, act.hash);
    }
  }

  lemma StepKeepsAlloc(cfg: Config, pool: seq<TxHash>, s: Sys, step: Step)
    requires Inv(s) && AllocInv(pool, s) && Next(cfg, s, step).Some?
    ensures AllocInv(pool, Next(cfg, s, step).value)
  {
    var t := Next(cfg, s, step).value;
    var nonces := Allocated(pool, t.log);
    assert Allocated(pool, s.log) <= nonces;
    match step
    case Submit(id, act) =>
      if act.SendOk? {
        assert Accepted(id, s.svc.nonce) == t.log[|s.log|];
      }
      SubmitKeepsAlloc(cfg, nonces, s, id, act);
    case Check(p, act) => CheckKeepsAlloc(cfg, nonces, s, p, act);
    case _ =>
  }

  lemma {:induction false} RunKeepsAlloc(cfg: Config, pool: seq<TxHash>, s: Sys, steps: seq<Step>)
    requires Inv(s) && AllocInv(pool, s) && Exec(cfg, s, steps).Some?
    ensures AllocInv(pool, Exec(cfg, s, steps).value)
  {
    if steps == [] {
    } else {
      RunKeepsAlloc(cfg, pool, s, steps[..|steps| - 1]);
      RunKeepsInv(cfg, s, steps[..|steps| - 1]);
      StepKeepsAlloc(cfg, pool, Exec(cfg, s, steps[..|steps| - 1]).value, steps[|steps| - 1]);
    }
  }

  /** Every dead letter ever accepted reuses a nonce that was already allocated. */
  lemma DeadLettersReuseNonces(cfg: Config, raw: Option<real>, count: int, pool: seq<TxHash>, now: int,
                               steps: seq<Step>, k: nat)
    requires Exec(cfg, Boot(cfg, raw, count, pool, now), steps).Some?
    requires k < |Exec(cfg, Boot(cfg, raw, count, pool, now), steps).value.replacements|
    ensures var s := Exec(cfg, Boot(cfg, raw, count, pool, now), steps).value;
      s.replacements[k].nonce in Allocated(pool, s.log)
  {
    var s0 := Boot(cfg, raw, count, pool, now);
    BootInv(cfg, raw, count, pool, now);
    WatchPoolContents(Service(count, UpdatedPrice(cfg, cfg.fallback, raw), {}, map[]), pool, now, cfg.timeoutMs);
    assert AllocInv(pool, s0);
    RunKeepsAlloc(cfg, pool, s0, steps);
  }
}
