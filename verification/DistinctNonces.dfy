/** When watched transactions have pairwise distinct nonces: the exact condition over every run, and that
    it is met by calm runs with fresh resets, in which passes do not overlap and the gas price is
    constant within a pass. */
module DistinctNonces {
  import opened Common
  import opened GasPricing
  import opened RelayerService
  import opened RelayerSystem
  import opened RelayerNonces

  ghost predicate DistinctWatched(svc: Service) {
    forall h, g :: h in svc.watched && g in svc.watched && h.nonce == g.nonce ==> h == g
  }

  /** Resets that a send follows directly report counts above every nonce pending at start-up or
      acknowledged before. */
  ghost predicate FreshResets(pool: seq<TxHash>, log: seq<LogEntry>) {
    && SoundResets(log)
    && forall h, k :: h in pool && 0 <= k < |log| - 1 && log[k].Reset? && log[k + 1].Accepted? ==>
         h.nonce < log[k].count
  }

  // ----- Sent transactions that are not watched yet

  /** The nonce of a sent transaction occurs nowhere else. */
  ghost predicate SentApart(s: Sys, id: nat)
    requires id in s.submitters && s.submitters[id].phase.Sent?
  {
    var n := s.submitters[id].phase.hash.nonce;
    && (forall h :: h in s.svc.watched ==> h.nonce != n)
    && (forall p, h :: p in s.passes && h in s.passes[p].items ==> h.nonce != n)
    && (forall j :: j in s.submitters && j != id && s.submitters[j].phase.Sent? ==>
          s.submitters[j].phase.hash.nonce != n)
  }

  ghost predicate SentInv(s: Sys) {
    forall id :: id in s.submitters && s.submitters[id].phase.Sent? ==> SentApart(s, id)
  }

  lemma {:induction false} PoolBelow(pool: seq<TxHash>, log: seq<LogEntry>, h: TxHash, j: nat)
    requires LogConsistent(log) && FreshResets(pool, log) && log != [] && log[0].Reset?
    requires h in pool && j < |log| && log[j].Accepted?
    ensures h.nonce < log[j].nonce
    decreases j
  {
    AcceptedIsNext(log, j);
    if log[j - 1].Accepted? {
      PoolBelow(pool, log, h, j - 1);
    }
  }

  /** A send after fresh resets uses a nonce above all allocated ones. */
  lemma SendIsFresh(pool: seq<TxHash>, log: seq<LogEntry>, e: LogEntry)
    requires LogConsistent(log + [e]) && FreshResets(pool, log + [e]) && e.Accepted?
    requires log != [] && log[0].Reset?
    ensures forall n :: n in Allocated(pool, log) ==> n < e.nonce
  {
    var grown := log + [e];
    forall h | h in pool
      ensures h.nonce < e.nonce
    {
      PoolBelow(pool, grown, h, |log|);
    }
    forall a | a in log && a.Accepted?
      ensures a.nonce < e.nonce
    {
      var k :| 0 <= k < |log| && log[k] == a;
      SoundMeansIncreasing(grown, k, |log|);
    }
  }

  /** Sent transactions stay apart when nothing new is watched or listed for their nonces. */
  lemma SentFrame(s: Sys, t: Sys)
    requires SentInv(s)
    requires forall id :: id in t.submitters && t.submitters[id].phase.Sent? ==>
      id in s.submitters && s.submitters[id].phase == t.submitters[id].phase
    requires forall h :: h in t.svc.watched ==>
      h in s.svc.watched || exists p, g :: p in s.passes && g in s.passes[p].items && g.nonce == h.nonce
    requires forall p, h :: p in t.passes && h in t.passes[p].items ==>
      (p in s.passes && h in s.passes[p].items) || h in s.svc.watched
    ensures SentInv(t)
  {
  }

  lemma SendKeepsSent(cfg: Config, pool: seq<TxHash>, s: Sys, id: nat)
    requires Inv(s) && AllocInv(pool, s) && SentInv(s) && NextSubmit(cfg, s, id, SendOk).Some?
    requires forall n :: n in Allocated(pool, s.log) ==> n < s.svc.nonce
    ensures SentInv(NextSubmit(cfg, s, id, SendOk).value)
  {
  }

  lemma WatchKeepsSent(cfg: Config, s: Sys, id: nat)
    requires SentInv(s) && NextSubmit(cfg, s, id, WatchSent).Some?
    ensures SentInv(NextSubmit(cfg, s, id, WatchSent).value)
  {
  }

  lemma OtherSubmitKeepsSent(cfg: Config, s: Sys, id: nat, act: SubmitAct)
    requires SentInv(s) && NextSubmit(cfg, s, id, act).Some? && !act.SendOk? && !act.WatchSent?
    ensures SentInv(NextSubmit(cfg, s, id, act).value)
  {
    SentFrame(s, NextSubmit(cfg, s, id, act).value);
  }

  lemma TaskKeepsSent(cfg: Config, s: Sys, p: nat, act: CheckAct, h: TxHash)
    requires Inv(s) && SentInv(s) && p in s.passes && HasTask(s.passes[p], h) && NextTask(cfg, s, p, act, h).Some?
    ensures SentInv(NextTask(cfg, s, p, act, h).value)
  {
    var t := NextTask(cfg, s, p, act, h).value;
    TaskDoesMove(cfg, s, p, act, h);
    assert s.passes[p].items[h].value.nonce == h.nonce;
    SentFrame(s, t);
  }

  lemma CheckKeepsSent(cfg: Config, s: Sys, p: nat, act: CheckAct)
    requires Inv(s) && SentInv(s) && NextCheck(cfg, s, p, act).Some?
    ensures SentInv(NextCheck(cfg, s, p, act).value)
  {
    if IsTaskAct(act) {
      TaskKeepsSent(cfg, s, p, act, act.hash);
    } else {
      SentFrame(s, NextCheck(cfg, s, p, act).value);
    }
  }

  lemma SubmitKeepsSent(cfg: Config, pool: seq<TxHash>, s: Sys, id: nat, act: SubmitAct)
    requires Inv(s) && AllocInv(pool, s) && SentInv(s) && NextSubmit(cfg, s, id, act).Some?
    requires s.log != [] && s.log[0].Reset? && FreshResets(pool, NextSubmit(cfg, s, id, act).value.log)
    ensures SentInv(NextSubmit(cfg, s, id, act).value)
  {
    if act.SendOk? {
      SubmitKeepsInv(cfg, s, id, act);
      assert SubmitterOk(s, s.submitters[id]);
      SendIsFresh(pool, s.log, Accepted(id, s.svc.nonce));
      SendKeepsSent(cfg, pool, s, id);
    } else if act.WatchSent? {
      WatchKeepsSent(cfg, s, id);
    } else {
      OtherSubmitKeepsSent(cfg, s, id, act);
    }
  }

  lemma StepKeepsSent(cfg: Config, pool: seq<TxHash>, s: Sys, step: Step)
    requires Inv(s) && AllocInv(pool, s) && SentInv(s) && Next(cfg, s, step).Some?
    requires s.log != [] && s.log[0].Reset? && FreshResets(pool, Next(cfg, s, step).value.log)
    ensures SentInv(Next(cfg, s, step).value)
  {
    match step
    case Submit(id, act) => SubmitKeepsSent(cfg, pool, s, id, act);
    case Check(p, act) => CheckKeepsSent(cfg, s, p, act);
    case GasTick(_) => SentFrame(s, Next(cfg, s, step).value);
    case Clock(_) => SentFrame(s, Next(cfg, s, step).value);
  }

  // ----- Exactly which step makes two watched transactions share a nonce

  /** A dead letter is accepted for an item that is no longer watched, while a transaction with its nonce
      other than the replacement is. */
  ghost predicate StaleReplacement(s: Sys, step: Step) {
    && step.Check? && step.checkAct.ReplaceOk?
    && step.pass in s.passes && HasTask(s.passes[step.pass], step.checkAct.hash)
    && var h := step.checkAct.hash;
       var pass := s.passes[step.pass];
       && pass.tasks[h].attempt.InFlight?
       && h !in s.svc.watched
       && exists w :: w in s.svc.watched && w.nonce == h.nonce
                      && w != ReplacementHash(pass.items[h].value, pass.tasks[h].attempt.price)
  }

  lemma ReplaceDistinctExactly(cfg: Config, s: Sys, p: nat, h: TxHash)
    requires Inv(s) && DistinctWatched(s.svc) && p in s.passes && HasTask(s.passes[p], h)
    requires NextTask(cfg, s, p, ReplaceOk(h), h).Some?
    ensures DistinctWatched(NextTask(cfg, s, p, ReplaceOk(h), h).value.svc)
       <==> !StaleReplacement(s, Check(p, ReplaceOk(h)))
  {
  }

  lemma WatchedShrinks(cfg: Config, s: Sys, step: Step)
    requires Next(cfg, s, step).Some?
    requires !(step.Submit? && step.submitAct.WatchSent?) && !(step.Check? && step.checkAct.ReplaceOk?)
    ensures Next(cfg, s, step).value.svc.watched <= s.svc.watched
  {
  }

  /** A sent transaction is watched while another one with its nonce is. */
  ghost predicate WatchBeside(s: Sys, step: Step) {
    && step.Submit? && step.submitAct.WatchSent?
    && step.id in s.submitters && s.submitters[step.id].phase.Sent?
    && var h := s.submitters[step.id].phase.hash;
       exists w :: w in s.svc.watched && w.nonce == h.nonce && w != h
  }

  lemma WatchDistinctExactly(cfg: Config, s: Sys, id: nat)
    requires DistinctWatched(s.svc) && NextSubmit(cfg, s, id, WatchSent).Some?
    ensures DistinctWatched(NextSubmit(cfg, s, id, WatchSent).value.svc) <==> !WatchBeside(s, Submit(id, WatchSent))
  {
    var t, h := NextSubmit(cfg, s, id, WatchSent).value, s.submitters[id].phase.hash;
    assert t.svc.watched == s.svc.watched + {h};
  }

  ghost predicate Clashes(s: Sys, step: Step) {
    StaleReplacement(s, step) || WatchBeside(s, step)
  }

  lemma StepDistinctExactly(cfg: Config, s: Sys, step: Step)
    requires Inv(s) && DistinctWatched(s.svc) && Next(cfg, s, step).Some?
    ensures DistinctWatched(Next(cfg, s, step).value.svc) <==> !Clashes(s, step)
  {
    if step.Submit? && step.submitAct.WatchSent? {
      WatchDistinctExactly(cfg, s, step.id);
    } else if step.Check? && step.checkAct.ReplaceOk? {
      ReplaceDistinctExactly(cfg, s, step.pass, step.checkAct.hash);
    } else {
      WatchedShrinks(cfg, s, step);
    }
  }

  ghost predicate StaysDistinct(cfg: Config, s: Sys, steps: seq<Step>) {
    && (Exec(cfg, s, steps).Some? ==> DistinctWatched(Exec(cfg, s, steps).value.svc))
    && (steps == [] || StaysDistinct(cfg, s, steps[..|steps| - 1]))
  }

  ghost predicate NoClash(cfg: Config, s: Sys, steps: seq<Step>) {
    steps == [] ||
    var front := steps[..|steps| - 1];
    && NoClash(cfg, s, front)
    && (Exec(cfg, s, front).Some? ==> !Clashes(Exec(cfg, s, front).value, steps[|steps| - 1]))
  }

  lemma {:induction false} RunDistinctExactly(cfg: Config, s: Sys, steps: seq<Step>)
    requires Inv(s) && Exec(cfg, s, steps).Some?
    ensures StaysDistinct(cfg, s, steps) <==> DistinctWatched(s.svc) && NoClash(cfg, s, steps)
  {
    if steps == [] {
    } else {
      var front, last := steps[..|steps| - 1], steps[|steps| - 1];
      RunDistinctExactly(cfg, s, front);
      RunKeepsInv(cfg, s, front);
      if StaysDistinct(cfg, s, front) {
        StepDistinctExactly(cfg, Exec(cfg, s, front).value, last);
      }
    }
  }

  ghost predicate DistinctPool(pool: seq<TxHash>) {
    forall h, g :: h in pool && g in pool && h.nonce == g.nonce ==> h == g
  }

  /** Over every run, whatever overlaps, however the price moves and whatever counts are reported, watched
      nonces stay pairwise distinct exactly when they are at start-up, no dead letter is accepted for an
      item that is no longer watched while another transaction with its nonce is, and no sent transaction
      is watched beside another one with its nonce. */
  lemma DistinctNoncesExactly(cfg: Config, raw: Option<real>, count: int, pool: seq<TxHash>, now: int,
                              steps: seq<Step>)
    requires Exec(cfg, Boot(cfg, raw, count, pool, now), steps).Some?
    ensures var s0 := Boot(cfg, raw, count, pool, now);
      StaysDistinct(cfg, s0, steps) <==> DistinctPool(pool) && NoClash(cfg, s0, steps)
  {
    var s0 := Boot(cfg, raw, count, pool, now);
    BootInv(cfg, raw, count, pool, now);
    WatchPoolContents(Service(count, UpdatedPrice(cfg, cfg.fallback, raw), {}, map[]), pool, now, cfg.timeoutMs);
    RunDistinctExactly(cfg, s0, steps);
  }

  // ----- With fresh resets only stale replacements clash

  lemma PrefixFresh(pool: seq<TxHash>, log: seq<LogEntry>, grown: seq<LogEntry>)
    requires log <= grown && FreshResets(pool, grown)
    ensures FreshResets(pool, log)
  {
  }

  lemma {:induction false} RunKeepsSent(cfg: Config, pool: seq<TxHash>, s: Sys, steps: seq<Step>)
    requires Inv(s) && AllocInv(pool, s) && SentInv(s) && s.log != [] && s.log[0].Reset?
    requires Exec(cfg, s, steps).Some? && FreshResets(pool, Exec(cfg, s, steps).value.log)
    ensures SentInv(Exec(cfg, s, steps).value)
  {
    if steps == [] {
    } else {
      var front, last := steps[..|steps| - 1], steps[|steps| - 1];
      var m := Exec(cfg, s, front).value;
      LogGrows(cfg, m, last);
      PrefixFresh(pool, m.log, Next(cfg, m, last).value.log);
      RunKeepsSent(cfg, pool, s, front);
      RunKeepsInv(cfg, s, front);
      RunKeepsAlloc(cfg, pool, s, front);
      LogStartsWithReset(cfg, s, front);
      StepKeepsSent(cfg, pool, m, last);
    }
  }

  lemma BootIsApart(cfg: Config, raw: Option<real>, count: int, pool: seq<TxHash>, now: int)
    requires DistinctPool(pool)
    ensures var s := Boot(cfg, raw, count, pool, now);
      Inv(s) && AllocInv(pool, s) && SentInv(s) && DistinctWatched(s.svc) && s.log == [Reset(count)]
  {
    BootInv(cfg, raw, count, pool, now);
    WatchPoolContents(Service(count, UpdatedPrice(cfg, cfg.fallback, raw), {}, map[]), pool, now, cfg.timeoutMs);
  }

  lemma SentIsNotBeside(s: Sys, step: Step)
    requires SentInv(s)
    ensures !WatchBeside(s, step)
  {
  }

  /** With fresh resets a sent transaction is never watched beside another one with its nonce, so nonces
      stay distinct exactly when no stale replacement is accepted. */
  lemma {:induction false} FreshRunsWatchApart(cfg: Config, pool: seq<TxHash>, s: Sys, steps: seq<Step>, k: nat)
    requires Inv(s) && AllocInv(pool, s) && SentInv(s) && s.log != [] && s.log[0].Reset?
    requires Exec(cfg, s, steps).Some? && FreshResets(pool, Exec(cfg, s, steps).value.log) && k < |steps|
    ensures Exec(cfg, s, steps[..k]).Some? && !WatchBeside(Exec(cfg, s, steps[..k]).value, steps[k])
    decreases |steps|
  {
    var front, last := steps[..|steps| - 1], steps[|steps| - 1];
    var m := Exec(cfg, s, front).value;
    LogGrows(cfg, m, last);
    PrefixFresh(pool, m.log, Next(cfg, m, last).value.log);
    if k == |steps| - 1 {
      RunKeepsSent(cfg, pool, s, front);
      SentIsNotBeside(m, last);
    } else {
      FreshRunsWatchApart(cfg, pool, s, front, k);
      assert front[..k] == steps[..k];
    }
  }

  // ----- Calm runs accept no stale replacement

  /** A step that starts no pass beside another one and does not move the price during a pass. */
  ghost predicate CalmStep(cfg: Config, s: Sys, step: Step) {
    && (step.Check? && step.checkAct.Start? ==> s.passes == map[])
    && (s.passes != map[] && Next(cfg, s, step).Some? ==>
          Next(cfg, s, step).value.svc.gasPrice == s.svc.gasPrice)
  }

  ghost predicate CalmRun(cfg: Config, s: Sys, steps: seq<Step>) {
    steps == [] ||
    var front := steps[..|steps| - 1];
    && CalmRun(cfg, s, front)
    && (Exec(cfg, s, front).Some? ==> CalmStep(cfg, Exec(cfg, s, front).value, steps[|steps| - 1]))
  }

  /** The one replacement hash the current price determines for a cached entry. */
  function Determined(svc: Service, c: Cached): TxHash {
    ReplacementHash(c, ReplacementPrice(c.gasPrice, svc.gasPrice))
  }

  /** The only hashes that may be watched for the nonce of an item of the running pass: the item
      itself, or the one replacement that the current price determines. */
  ghost predicate ItemTracked(svc: Service, pass: Pass, h: TxHash)
    requires h in pass.items && pass.items[h].Some?
  {
    forall w :: w in svc.watched && w.nonce == h.nonce ==>
      w == h || w == Determined(svc, pass.items[h].value)
  }

  /** Every dead letter in flight offers the price that the current price determines. */
  ghost predicate TasksDetermined(svc: Service, pass: Pass) {
    pass.Replacing? ==> forall h :: h in pass.tasks && pass.tasks[h].attempt.InFlight? ==>
      && h in pass.items && pass.items[h].Some?
      && pass.tasks[h].attempt.price == ReplacementPrice(pass.items[h].value.gasPrice, svc.gasPrice)
  }

  ghost predicate ItemsTracked(svc: Service, pass: Pass) {
    && ItemsOk(pass.items)
    && (forall h, g :: h in pass.items && g in pass.items && h.nonce == g.nonce ==> h == g)
    && (forall h :: h in pass.items ==> ItemTracked(svc, pass, h))
  }

  ghost predicate TrackedInv(s: Sys) {
    && (forall p, q :: p in s.passes && q in s.passes ==> p == q)
    && (forall p :: p in s.passes ==> ItemsTracked(s.svc, s.passes[p]) && TasksDetermined(s.svc, s.passes[p]))
  }

  lemma TrackedIsNotStale(cfg: Config, s: Sys, step: Step)
    requires TrackedInv(s) && Next(cfg, s, step).Some?
    ensures !StaleReplacement(s, step)
  {
  }

  lemma PassesFrame(s: Sys, t: Sys)
    requires TrackedInv(s) && t.passes == s.passes
    requires s.passes != map[] ==> t.svc.gasPrice == s.svc.gasPrice
    requires forall w, p, h :: w in t.svc.watched && p in s.passes && h in s.passes[p].items && w.nonce == h.nonce ==>
      w in s.svc.watched
    ensures TrackedInv(t)
  {
  }

  lemma SubmitKeepsTracked(cfg: Config, s: Sys, id: nat, act: SubmitAct)
    requires SentInv(s) && TrackedInv(s) && NextSubmit(cfg, s, id, act).Some?
    requires s.passes != map[] ==> NextSubmit(cfg, s, id, act).value.svc.gasPrice == s.svc.gasPrice
    ensures TrackedInv(NextSubmit(cfg, s, id, act).value)
  {
    if act.WatchSent? {
      assert SentApart(s, id);
    }
    PassesFrame(s, NextSubmit(cfg, s, id, act).value);
  }

  /** What a dead letter step can change, whatever its outcome. */
  ghost predicate TaskEffect(s: Sys, t: Sys, p: nat, h: TxHash) {
    && p in s.passes && HasTask(s.passes[p], h) && t.passes.Keys == s.passes.Keys
    && t.svc.gasPrice == s.svc.gasPrice
    && t.passes[p].items == s.passes[p].items
    && (forall w :: w in t.svc.watched ==> w in s.svc.watched || w == Determined(s.svc, s.passes[p].items[h].value))
    && TasksDetermined(s.svc, t.passes[p])
  }

  lemma TaskHasEffect(cfg: Config, s: Sys, p: nat, act: CheckAct, h: TxHash)
    requires TrackedInv(s) && p in s.passes && HasTask(s.passes[p], h)
    requires NextTask(cfg, s, p, act, h).Some?
    requires NextTask(cfg, s, p, act, h).value.svc.gasPrice == s.svc.gasPrice
    ensures TaskEffect(s, NextTask(cfg, s, p, act, h).value, p, h)
  {
  }

  lemma EffectKeepsTracked(s: Sys, t: Sys, p: nat, h: TxHash)
    requires TrackedInv(s) && TaskEffect(s, t, p, h)
    ensures TrackedInv(t)
  {
  }

  lemma StageKeepsTracked(cfg: Config, s: Sys, p: nat, act: CheckAct)
    requires TrackedInv(s) && NextCheck(cfg, s, p, act).Some?
    requires act.Summaries? || act.Judge? || act.NextStage?
    ensures TrackedInv(NextCheck(cfg, s, p, act).value)
  {
  }

  lemma StartKeepsTracked(cfg: Config, s: Sys, p: nat)
    requires Inv(s) && DistinctWatched(s.svc) && NextCheck(cfg, s, p, Start).Some? && s.passes == map[]
    ensures TrackedInv(NextCheck(cfg, s, p, Start).value)
  {
  }

  lemma EndKeepsTracked(cfg: Config, s: Sys, p: nat, act: CheckAct)
    requires NextCheck(cfg, s, p, act).Some? && TrackedInv(s) && (act.Confirm? || act.Abort?)
    ensures TrackedInv(NextCheck(cfg, s, p, act).value)
  {
  }

  lemma CheckKeepsTracked(cfg: Config, s: Sys, p: nat, act: CheckAct)
    requires Inv(s) && DistinctWatched(s.svc) && TrackedInv(s) && CalmStep(cfg, s, Check(p, act))
    requires NextCheck(cfg, s, p, act).Some?
    ensures TrackedInv(NextCheck(cfg, s, p, act).value)
  {
    assert Next(cfg, s, Check(p, act)) == NextCheck(cfg, s, p, act);
    if IsTaskAct(act) {
      TaskHasEffect(cfg, s, p, act, act.hash);
      EffectKeepsTracked(s, NextCheck(cfg, s, p, act).value, p, act.hash);
    } else if act.Start? {
      StartKeepsTracked(cfg, s, p);
    } else if act.Confirm? || act.Abort? {
      EndKeepsTracked(cfg, s, p, act);
    } else {
      StageKeepsTracked(cfg, s, p, act);
    }
  }

  lemma StepKeepsTracked(cfg: Config, s: Sys, step: Step)
    requires Inv(s) && SentInv(s) && DistinctWatched(s.svc) && TrackedInv(s) && CalmStep(cfg, s, step)
    requires Next(cfg, s, step).Some?
    ensures TrackedInv(Next(cfg, s, step).value)
  {
    match step
    case Submit(id, act) =>
      assert Next(cfg, s, step) == NextSubmit(cfg, s, id, act);
      SubmitKeepsTracked(cfg, s, id, act);
    case Check(p, act) => CheckKeepsTracked(cfg, s, p, act);
    case GasTick(_) => PassesFrame(s, Next(cfg, s, step).value);
    case Clock(_) => PassesFrame(s, Next(cfg, s, step).value);
  }

  lemma {:induction false} CalmRunsAreDistinct(cfg: Config, pool: seq<TxHash>, s: Sys, steps: seq<Step>)
    requires Inv(s) && AllocInv(pool, s) && SentInv(s) && s.log != [] && s.log[0].Reset?
    requires DistinctWatched(s.svc) && TrackedInv(s)
    requires Exec(cfg, s, steps).Some? && CalmRun(cfg, s, steps)
    requires FreshResets(pool, Exec(cfg, s, steps).value.log)
    ensures DistinctWatched(Exec(cfg, s, steps).value.svc) && TrackedInv(Exec(cfg, s, steps).value)
    ensures NoClash(cfg, s, steps)
  {
    if steps == [] {
    } else {
      var front, last := steps[..|steps| - 1], steps[|steps| - 1];
      var m := Exec(cfg, s, front).value;
      LogGrows(cfg, m, last);
      PrefixFresh(pool, m.log, Next(cfg, m, last).value.log);
      CalmRunsAreDistinct(cfg, pool, s, front);
      RunKeepsInv(cfg, s, front);
      RunKeepsSent(cfg, pool, s, front);
      StepKeepsTracked(cfg, m, last);
      TrackedIsNotStale(cfg, m, last);
      SentIsNotBeside(m, last);
      StepDistinctExactly(cfg, m, last);
    }
  }

  /** In a calm run with fresh resets no two watched transactions share a nonce, although one item
      may be dead-lettered twice from one snapshot, as GasTooLow and as Expired. */
  lemma WatchedNoncesDistinct(cfg: Config, raw: Option<real>, count: int, pool: seq<TxHash>, now: int,
                              steps: seq<Step>)
    requires var s0 := Boot(cfg, raw, count, pool, now);
      && DistinctPool(pool) && Exec(cfg, s0, steps).Some? && CalmRun(cfg, s0, steps)
      && FreshResets(pool, Exec(cfg, s0, steps).value.log)
    ensures var s0 := Boot(cfg, raw, count, pool, now);
      DistinctWatched(Exec(cfg, s0, steps).value.svc) && NoClash(cfg, s0, steps)
  {
    BootIsApart(cfg, raw, count, pool, now);
    CalmRunsAreDistinct(cfg, pool, Boot(cfg, raw, count, pool, now), steps);
  }
}
