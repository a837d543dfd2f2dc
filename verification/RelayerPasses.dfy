/** Which transactions a check pass replaces, and as what, over every run: exactly those that its own
    snapshot, its own summaries and the prices and times of those moments call for. */
module RelayerPasses {
  import opened Common
  import opened GasPricing
  import opened RelayerService
  import opened RelayerSystem
  import opened RelayerNonces
  import opened RelayerProvenance

  /** The pass took this step, from state s, and has not been started again since. */
  ghost predicate PassTook(r: Run, k: int, s: Sys, p: nat, act: CheckAct) {
    Took(r, k, s, Check(p, act)) && forall j :: k < j < |r.steps| ==> r.steps[j] != Check(p, Start)
  }

  /** The items are the transactions watched when the pass started, with their cached data. */
  ghost predicate ItemsFrom(r: Run, p: nat, items: Items) {
    exists k, s :: PassTook(r, k, s, p, Start)
      && (forall h :: h in items <==> h in s.svc.watched)
      && (forall h :: h in items ==> h in s.svc.cache && items[h] == Some(s.svc.cache[h]))
  }

  /** The summaries found exactly these mined. */
  ghost predicate FoundBy(r: Run, p: nat, mined: set<TxHash>) {
    exists k, s :: PassTook(r, k, s, p, Summaries(mined))
  }

  /** These are the items that were not mined and cached below the gas price when the summaries came. */
  ghost predicate LowBy(r: Run, p: nat, items: Items, mined: set<TxHash>, low: set<TxHash>) {
    exists k, s :: PassTook(r, k, s, p, Summaries(mined))
      && forall h :: h in low <==>
           h in items && h !in mined && items[h].Some? && items[h].value.gasPrice < s.svc.gasPrice
  }

  /** These are the items that were not mined and watched for longer than their expiry when the pass began
      to replace; one whose time is missing, that is zero, counts as expired. */
  ghost predicate ExpiredBy(r: Run, p: nat, items: Items, mined: set<TxHash>, expired: set<TxHash>) {
    exists k, s :: PassTook(r, k, s, p, Judge)
      && forall h :: h in expired <==>
           h in items && h !in mined && items[h].Some?
           && (items[h].value.seenAt == 0 || s.now - items[h].value.seenAt > items[h].value.expireIn)
  }

  ghost predicate Classifies(r: Run, p: nat, pass: Pass) {
    && ItemsFrom(r, p, pass.items)
    && match pass
       case Fetching(_) => true
       case Classified(items, mined, low) => FoundBy(r, p, mined) && LowBy(r, p, items, mined, low)
       case Replacing(items, mined, expired, reason, tasks) =>
         && FoundBy(r, p, mined) && ExpiredBy(r, p, items, mined, expired)
         && if reason.GasTooLow? then LowBy(r, p, items, mined, tasks.Keys) else tasks.Keys == expired
       case Confirming(_, mined) => FoundBy(r, p, mined)
  }

  /** What a pass has done lasts until it is started again. */
  lemma PassLasts(r: Run, step: Step, p: nat, pass: Pass)
    requires Classifies(r, p, pass) && step != Check(p, Start)
    ensures Classifies(Then(r, step), p, pass)
  {
    Lasts(r, step);
    TookLasts(r, step, p);
    var q := Then(r, step);
    var k0, s0 :| PassTook(r, k0, s0, p, Start)
      && (forall h :: h in pass.items <==> h in s0.svc.watched)
      && (forall h :: h in pass.items ==> h in s0.svc.cache && pass.items[h] == Some(s0.svc.cache[h]));
    assert PassTook(q, k0, s0, p, Start);
    if !pass.Fetching? {
      var k1, s1 :| PassTook(r, k1, s1, p, Summaries(pass.mined));
      assert PassTook(q, k1, s1, p, Summaries(pass.mined));
    }
    if pass.Classified? {
      LowLasts(r, step, p, pass.items, pass.mined, pass.low);
    } else if pass.Replacing? {
      ExpiredLasts(r, step, p, pass.items, pass.mined, pass.expired);
      if pass.reason.GasTooLow? {
        LowLasts(r, step, p, pass.items, pass.mined, pass.tasks.Keys);
      }
    }
  }

  lemma TookLasts(r: Run, step: Step, p: nat)
    requires step != Check(p, Start)
    ensures forall k, s, act :: PassTook(r, k, s, p, act) ==> PassTook(Then(r, step), k, s, p, act)
  {
    Lasts(r, step);
  }

  lemma LowLasts(r: Run, step: Step, p: nat, items: Items, mined: set<TxHash>, low: set<TxHash>)
    requires LowBy(r, p, items, mined, low) && step != Check(p, Start)
    ensures LowBy(Then(r, step), p, items, mined, low)
  {
    TookLasts(r, step, p);
    var k, s :| PassTook(r, k, s, p, Summaries(mined))
      && forall h :: h in low <==>
           h in items && h !in mined && items[h].Some? && items[h].value.gasPrice < s.svc.gasPrice;
    assert PassTook(Then(r, step), k, s, p, Summaries(mined));
  }

  lemma ExpiredLasts(r: Run, step: Step, p: nat, items: Items, mined: set<TxHash>, expired: set<TxHash>)
    requires ExpiredBy(r, p, items, mined, expired) && step != Check(p, Start)
    ensures ExpiredBy(Then(r, step), p, items, mined, expired)
  {
    TookLasts(r, step, p);
    var k, s :| PassTook(r, k, s, p, Judge)
      && forall h :: h in expired <==>
           h in items && h !in mined && items[h].Some?
           && (items[h].value.seenAt == 0 || s.now - items[h].value.seenAt > items[h].value.expireIn);
    assert PassTook(Then(r, step), k, s, p, Judge);
  }

  lemma PassNow(r: Run, s: Sys, p: nat, act: CheckAct)
    requires Exec(r.cfg, r.start, r.steps) == Some(s)
    ensures PassTook(Then(r, Check(p, act)), |r.steps|, s, p, act)
  {
    Now(r, Check(p, act), s);
  }

  lemma StartClassifies(r: Run, s: Sys, p: nat)
    requires Exec(r.cfg, r.start, r.steps) == Some(s) && Inv(s) && NextCheck(r.cfg, s, p, Start).Some?
    ensures Classifies(Then(r, Check(p, Start)), p, NextCheck(r.cfg, s, p, Start).value.passes[p])
  {
    PassNow(r, s, p, Start);
  }

  lemma SummariesClassify(r: Run, s: Sys, p: nat, found: set<TxHash>)
    requires Exec(r.cfg, r.start, r.steps) == Some(s) && p in s.passes && Classifies(r, p, s.passes[p])
    requires NextCheck(r.cfg, s, p, Summaries(found)).Some?
    ensures Classifies(Then(r, Check(p, Summaries(found))), p,
                       NextCheck(r.cfg, s, p, Summaries(found)).value.passes[p])
  {
    PassNow(r, s, p, Summaries(found));
    PassLasts(r, Check(p, Summaries(found)), p, s.passes[p]);
    assert LowBy(Then(r, Check(p, Summaries(found))), p, s.passes[p].items, found,
                 NextCheck(r.cfg, s, p, Summaries(found)).value.passes[p].low);
  }

  lemma JudgeClassifies(r: Run, s: Sys, p: nat)
    requires Exec(r.cfg, r.start, r.steps) == Some(s) && p in s.passes && Classifies(r, p, s.passes[p])
    requires Inv(s) && NextCheck(r.cfg, s, p, Judge).Some?
    ensures Classifies(Then(r, Check(p, Judge)), p, NextCheck(r.cfg, s, p, Judge).value.passes[p])
  {
    var pass, next := s.passes[p], NextCheck(r.cfg, s, p, Judge).value.passes[p];
    PassNow(r, s, p, Judge);
    PassLasts(r, Check(p, Judge), p, pass);
    assert next.tasks.Keys == pass.low by {
      assert forall h :: h in pass.low ==> h in pass.items && pass.items[h].Some?;
    }
    assert ExpiredBy(Then(r, Check(p, Judge)), p, pass.items, pass.mined, next.expired);
  }

  lemma NextStageClassifies(r: Run, s: Sys, p: nat)
    requires Exec(r.cfg, r.start, r.steps) == Some(s) && p in s.passes && Classifies(r, p, s.passes[p])
    requires NextCheck(r.cfg, s, p, NextStage).Some?
    ensures Classifies(Then(r, Check(p, NextStage)), p, NextCheck(r.cfg, s, p, NextStage).value.passes[p])
  {
    var pass, next := s.passes[p], NextCheck(r.cfg, s, p, NextStage).value.passes[p];
    PassLasts(r, Check(p, NextStage), p, pass);
    if next.Replacing? {
      assert forall h :: h in pass.expired ==> h in pass.items && pass.items[h].Some?;
      assert next.tasks.Keys == pass.expired;
    }
  }

  /** A dead-letter step changes no item and no set of tasks. */
  lemma TaskClassifies(r: Run, s: Sys, p: nat, act: CheckAct)
    requires Exec(r.cfg, r.start, r.steps) == Some(s) && p in s.passes && Classifies(r, p, s.passes[p])
    requires IsTaskAct(act) && NextCheck(r.cfg, s, p, act).Some?
    ensures Classifies(Then(r, Check(p, act)), p, NextCheck(r.cfg, s, p, act).value.passes[p])
  {
    var pass, next := s.passes[p], NextCheck(r.cfg, s, p, act).value.passes[p];
    TaskFrame(r.cfg, s, p, act, act.hash);
    PassLasts(r, Check(p, act), p, pass);
    assert next.tasks.Keys == pass.tasks.Keys;
  }

  lemma OwnStepClassifies(r: Run, s: Sys, p: nat, act: CheckAct)
    requires Exec(r.cfg, r.start, r.steps) == Some(s) && Inv(s)
    requires p in s.passes ==> Classifies(r, p, s.passes[p])
    requires NextCheck(r.cfg, s, p, act).Some? && p in NextCheck(r.cfg, s, p, act).value.passes
    ensures Classifies(Then(r, Check(p, act)), p, NextCheck(r.cfg, s, p, act).value.passes[p])
  {
    if IsTaskAct(act) {
      TaskClassifies(r, s, p, act);
    } else {
      match act
      case Start => StartClassifies(r, s, p);
      case Summaries(found) => SummariesClassify(r, s, p, found);
      case Judge => JudgeClassifies(r, s, p);
      case NextStage => NextStageClassifies(r, s, p);
      case _ =>
    }
  }

  lemma OtherPass(cfg: Config, s: Sys, step: Step, p: nat)
    requires Next(cfg, s, step).Some? && !(step.Check? && step.pass == p)
    ensures var t := Next(cfg, s, step).value;
      (p in t.passes <==> p in s.passes) && (p in s.passes ==> t.passes[p] == s.passes[p])
  {
  }

  lemma StepClassifies(r: Run, s: Sys, step: Step, p: nat)
    requires Exec(r.cfg, r.start, r.steps) == Some(s) && Inv(s) && Next(r.cfg, s, step).Some?
    requires p in s.passes ==> Classifies(r, p, s.passes[p])
    ensures p in Next(r.cfg, s, step).value.passes ==>
      Classifies(Then(r, step), p, Next(r.cfg, s, step).value.passes[p])
  {
    if step.Check? && step.pass == p {
      if p in Next(r.cfg, s, step).value.passes {
        OwnStepClassifies(r, s, p, step.checkAct);
      }
    } else {
      OtherPass(r.cfg, s, step, p);
      if p in s.passes {
        PassLasts(r, step, p, s.passes[p]);
      }
    }
  }

  lemma {:induction false} RunClassifies(cfg: Config, raw: Option<real>, count: int, pool: seq<TxHash>, now: int,
                                        steps: seq<Step>, p: nat)
    requires Exec(cfg, Boot(cfg, raw, count, pool, now), steps).Some?
    ensures var s0 := Boot(cfg, raw, count, pool, now);
      p in Exec(cfg, s0, steps).value.passes ==>
        Classifies(Run(cfg, s0, steps), p, Exec(cfg, s0, steps).value.passes[p])
  {
    var s0 := Boot(cfg, raw, count, pool, now);
    if steps == [] {
    } else {
      var front, last := steps[..|steps| - 1], steps[|steps| - 1];
      var r, s := Run(cfg, s0, front), Exec(cfg, s0, front).value;
      RunClassifies(cfg, raw, count, pool, now, front, p);
      BootInv(cfg, raw, count, pool, now);
      RunKeepsInv(cfg, s0, front);
      assert steps == front + [last] && Then(r, last) == Run(cfg, s0, steps);
      StepClassifies(r, s, last, p);
    }
  }

  /** In every run, however passes overlap and prices move, a pass works on exactly the transactions that
      were watched when it started, replaces as GasTooLow exactly those neither mined nor cached at the gas
      price of its summaries, then as Expired exactly those neither mined nor within their expiry when it
      began to replace, and so never replaces what it has found mined. */
  lemma PassesClassifyExactly(cfg: Config, raw: Option<real>, count: int, pool: seq<TxHash>, now: int,
                              steps: seq<Step>, p: nat)
    requires Exec(cfg, Boot(cfg, raw, count, pool, now), steps).Some?
    requires p in Exec(cfg, Boot(cfg, raw, count, pool, now), steps).value.passes
    ensures var s0 := Boot(cfg, raw, count, pool, now);
      var pass := Exec(cfg, s0, steps).value.passes[p];
      && Classifies(Run(cfg, s0, steps), p, pass)
      && (pass.Replacing? ==> forall h :: h in pass.tasks ==> h !in pass.mined)
  {
    RunClassifies(cfg, raw, count, pool, now, steps, p);
  }
}
