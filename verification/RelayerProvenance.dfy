/** Where everything the relayer keeps comes from, over every run: what was sent and cached for each
    watched transaction, and which items each pass replaces and why. Moments of a run are prefixes of
    its list of steps. */
module RelayerProvenance {
  import opened Common
  import opened GasPricing
  import opened RelayerService
  import opened RelayerSystem
  import opened RelayerNonces

  /** A run, given by the state it started in and its steps. */
  datatype Run = Run(cfg: Config, start: Sys, steps: seq<Step>)

  ghost function Then(r: Run, step: Step): Run {
    r.(steps := r.steps + [step])
  }

  /** The state s was reached after k steps. */
  ghost predicate Was(r: Run, k: int, s: Sys) {
    0 <= k <= |r.steps| && Exec(r.cfg, r.start, r.steps[..k]) == Some(s)
  }

  /** The run took the step from state s, after k steps. */
  ghost predicate Took(r: Run, k: int, s: Sys, step: Step) {
    Was(r, k, s) && k < |r.steps| && r.steps[k] == step
  }

  lemma Lasts(r: Run, step: Step)
    ensures forall k, s :: Was(r, k, s) ==> Was(Then(r, step), k, s)
    ensures forall k, s, x :: Took(r, k, s, x) ==> Took(Then(r, step), k, s, x)
  {
    forall k | 0 <= k <= |r.steps|
      ensures Then(r, step).steps[..k] == r.steps[..k]
    {
    }
  }

  lemma Now(r: Run, step: Step, s: Sys)
    requires Exec(r.cfg, r.start, r.steps) == Some(s)
    ensures Was(r, |r.steps|, s) && Took(Then(r, step), |r.steps|, s, step)
  {
    assert r.steps[..|r.steps|] == r.steps && Then(r, step).steps[..|r.steps|] == r.steps;
  }

  // ----- What was sent and cached

  /** The submission was made with this data. */
  ghost predicate Begun(r: Run, id: nat, data: nat) {
    exists k, s :: Took(r, k, s, Submit(id, Begin(data)))
  }

  /** The submission took the lock when the relayer had this price and this nonce. */
  ghost predicate LockedAt(r: Run, id: nat, price: real, nonce: int) {
    exists k, s :: Took(r, k, s, Submit(id, Acquire)) && s.svc.gasPrice == price && s.svc.nonce == nonce
  }

  /** h carries the data of the submission, at the price and with the nonce it found when it took the lock. */
  ghost predicate SentFor(r: Run, id: nat, h: TxHash) {
    exists data, price :: h == TxHash(h.nonce, ToWei(price), Request(data))
                          && Begun(r, id, data) && LockedAt(r, id, price, h.nonce)
  }

  /** The relayer had this price at some moment. */
  ghost predicate PriceWas(r: Run, price: real) {
    exists k, s :: Was(r, k, s) && s.svc.gasPrice == price
  }

  /** The cached data of a submission: the price, read again after the send, and the time at which the
      submission came under watch. */
  ghost predicate CachedFor(r: Run, id: nat, h: TxHash, c: Cached) {
    exists k, s :: Took(r, k, s, Submit(id, WatchSent)) && s.svc.gasPrice == c.gasPrice && s.now == c.seenAt
  }

  /** The cached data of a dead letter: 1.4 times the price before, or the gas price of some moment if
      that is higher. */
  ghost predicate Outbid(r: Run, before: real, price: real) {
    price >= 1.4 * before && (price == 1.4 * before || PriceWas(r, price))
  }

  /** The node accepted a dead letter for g at this time. */
  ghost predicate ReplacedAt(r: Run, g: TxHash, time: int) {
    exists k, s, p :: Took(r, k, s, Check(p, ReplaceOk(g))) && s.now == time
  }

  /** What is cached for h is what happened to it. */
  ghost predicate EntryTrue(r: Run, h: TxHash, c: Cached)
    decreases c
  {
    && c.nonce == h.nonce
    && match c.origin
       case Submitted =>
         c.expireIn == r.cfg.timeoutMs && exists id :: SentFor(r, id, h) && CachedFor(r, id, h, c)
       case Pooled =>
         h in r.start.svc.watched && c.gasPrice == h.price as real && c.seenAt == r.start.now
         && c.expireIn == r.cfg.timeoutMs
       case Replacement(parent, _) =>
         && h.payload == SelfTransfer && h.price == ToWei(c.gasPrice)
         && c.expireIn == parent.expireIn + parent.expireIn && Outbid(r, parent.gasPrice, c.gasPrice)
         && exists g :: ReplacedAt(r, g, c.seenAt) && EntryTrue(r, g, parent)
  }

  ghost predicate SubmitterTrue(r: Run, id: nat, a: Submitter) {
    && Begun(r, id, a.data)
    && (a.phase.Sending? ==> LockedAt(r, id, a.phase.price, a.phase.nonce))
    && (a.phase.Sent? ==> SentFor(r, id, a.phase.hash) && a.phase.nonce == a.phase.hash.nonce)
  }

  ghost predicate ItemsTrue(r: Run, items: Items) {
    forall h :: h in items && items[h].Some? ==> EntryTrue(r, h, items[h].value)
  }

  ghost predicate TaskTrue(r: Run, before: real, t: Task) {
    t.attempt.InFlight? ==> Outbid(r, before, t.attempt.price)
  }

  ghost predicate PassTrue(r: Run, pass: Pass) {
    && ItemsTrue(r, pass.items)
    && (pass.Replacing? ==> forall h :: h in pass.tasks && h in pass.items && pass.items[h].Some? ==>
          TaskTrue(r, pass.items[h].value.gasPrice, pass.tasks[h]))
  }

  ghost predicate CacheTrue(r: Run, s: Sys) {
    forall h :: h in s.svc.cache ==> EntryTrue(r, h, s.svc.cache[h])
  }

  ghost predicate AllTrue(r: Run, s: Sys) {
    && CacheTrue(r, s)
    && (forall id :: id in s.submitters ==> SubmitterTrue(r, id, s.submitters[id]))
    && (forall p :: p in s.passes ==> PassTrue(r, s.passes[p]))
  }

  // ----- Truths last

  lemma SentLasts(r: Run, step: Step)
    ensures forall id, data :: Begun(r, id, data) ==> Begun(Then(r, step), id, data)
    ensures forall id, price, nonce :: LockedAt(r, id, price, nonce) ==> LockedAt(Then(r, step), id, price, nonce)
    ensures forall id, h :: SentFor(r, id, h) ==> SentFor(Then(r, step), id, h)
  {
    Lasts(r, step);
    var q := Then(r, step);
    forall id, data | Begun(r, id, data)
      ensures Begun(q, id, data)
    {
      var k, s :| Took(r, k, s, Submit(id, Begin(data)));
      assert Took(q, k, s, Submit(id, Begin(data)));
    }
    forall id, price, nonce | LockedAt(r, id, price, nonce)
      ensures LockedAt(q, id, price, nonce)
    {
      var k, s :| Took(r, k, s, Submit(id, Acquire)) && s.svc.gasPrice == price && s.svc.nonce == nonce;
      assert Took(q, k, s, Submit(id, Acquire));
    }
  }

  lemma OutbidLasts(r: Run, step: Step)
    ensures forall before, price :: Outbid(r, before, price) ==> Outbid(Then(r, step), before, price)
  {
    Lasts(r, step);
    forall price | PriceWas(r, price)
      ensures PriceWas(Then(r, step), price)
    {
      var k, s :| Was(r, k, s) && s.svc.gasPrice == price;
      assert Was(Then(r, step), k, s);
    }
  }

  lemma {:induction false} EntryLasts(r: Run, step: Step, h: TxHash, c: Cached)
    requires EntryTrue(r, h, c)
    ensures EntryTrue(Then(r, step), h, c)
    decreases c
  {
    var q := Then(r, step);
    Lasts(r, step);
    match c.origin
    case Submitted =>
      SentLasts(r, step);
      var id :| SentFor(r, id, h) && CachedFor(r, id, h, c);
      var k, s :| Took(r, k, s, Submit(id, WatchSent)) && s.svc.gasPrice == c.gasPrice && s.now == c.seenAt;
      assert Took(q, k, s, Submit(id, WatchSent));
      assert SentFor(q, id, h) && CachedFor(q, id, h, c);
    case Pooled =>
    case Replacement(parent, _) =>
      OutbidLasts(r, step);
      var g :| ReplacedAt(r, g, c.seenAt) && EntryTrue(r, g, parent);
      var k, s, p :| Took(r, k, s, Check(p, ReplaceOk(g))) && s.now == c.seenAt;
      assert Took(q, k, s, Check(p, ReplaceOk(g)));
      EntryLasts(r, step, g, parent);
      assert ReplacedAt(q, g, c.seenAt) && EntryTrue(q, g, parent);
  }

  /** Whatever was true stays true, whether it is kept or not. */
  lemma TruthsLast(r: Run, step: Step, s: Sys)
    requires AllTrue(r, s)
    ensures AllTrue(Then(r, step), s)
  {
    SentLasts(r, step);
    OutbidLasts(r, step);
    forall h, c | EntryTrue(r, h, c)
      ensures EntryTrue(Then(r, step), h, c)
    {
      EntryLasts(r, step, h, c);
    }
  }

  // ----- Every step keeps them

  lemma BeginTrue(r: Run, s: Sys, id: nat, data: nat)
    requires Exec(r.cfg, r.start, r.steps) == Some(s)
    ensures Begun(Then(r, Submit(id, Begin(data))), id, data)
  {
    Now(r, Submit(id, Begin(data)), s);
  }

  lemma AcquireTrue(r: Run, s: Sys, id: nat)
    requires Exec(r.cfg, r.start, r.steps) == Some(s)
    ensures LockedAt(Then(r, Submit(id, Acquire)), id, s.svc.gasPrice, s.svc.nonce)
  {
    Now(r, Submit(id, Acquire), s);
  }

  lemma WatchTrue(r: Run, s: Sys, id: nat)
    requires Exec(r.cfg, r.start, r.steps) == Some(s) && AllTrue(r, s)
    requires NextSubmit(r.cfg, s, id, WatchSent).Some?
    ensures CacheTrue(Then(r, Submit(id, WatchSent)), NextSubmit(r.cfg, s, id, WatchSent).value)
  {
    var step, t := Submit(id, WatchSent), NextSubmit(r.cfg, s, id, WatchSent).value;
    var h := s.submitters[id].phase.hash;
    Now(r, step, s);
    TruthsLast(r, step, s);
    assert SubmitterTrue(Then(r, step), id, s.submitters[id]);
    assert CachedFor(Then(r, step), id, h, t.svc.cache[h]);
    assert EntryTrue(Then(r, step), h, t.svc.cache[h]);
  }

  /** The submitter after its own step, given what the step has added to the run. */
  lemma NextSubmitterTrue(q: Run, cfg: Config, s: Sys, id: nat, act: SubmitAct)
    requires NextSubmit(cfg, s, id, act).Some?
    requires act.Begin? ==> Begun(q, id, act.data)
    requires act.Acquire? ==> LockedAt(q, id, s.svc.gasPrice, s.svc.nonce)
    requires !act.Begin? ==> SubmitterTrue(q, id, s.submitters[id]) && SubmitterOk(s, s.submitters[id])
    ensures SubmitterTrue(q, id, NextSubmit(cfg, s, id, act).value.submitters[id])
  {
    if act.SendOk? {
      var a := s.submitters[id];
      assert SentFor(q, id, TxHash(a.phase.nonce, ToWei(a.phase.price), Request(a.data)));
    }
  }

  lemma OwnSubmitterTrue(r: Run, s: Sys, id: nat, act: SubmitAct)
    requires Exec(r.cfg, r.start, r.steps) == Some(s) && AllTrue(r, s) && Inv(s)
    requires NextSubmit(r.cfg, s, id, act).Some?
    ensures SubmitterTrue(Then(r, Submit(id, act)), id, NextSubmit(r.cfg, s, id, act).value.submitters[id])
  {
    var q := Then(r, Submit(id, act));
    if act.Begin? {
      BeginTrue(r, s, id, act.data);
    } else {
      TruthsLast(r, Submit(id, act), s);
      assert SubmitterTrue(q, id, s.submitters[id]) && SubmitterOk(s, s.submitters[id]);
      if act.Acquire? {
        AcquireTrue(r, s, id);
      }
    }
    NextSubmitterTrue(q, r.cfg, s, id, act);
  }

  lemma SubmitFrame(cfg: Config, s: Sys, id: nat, act: SubmitAct)
    requires NextSubmit(cfg, s, id, act).Some?
    ensures var t := NextSubmit(cfg, s, id, act).value;
      && t.submitters.Keys == s.submitters.Keys + {id} && t.passes == s.passes
      && (forall j :: j in s.submitters && j != id ==> t.submitters[j] == s.submitters[j])
      && (!act.WatchSent? ==> t.svc.cache == s.svc.cache)
  {
  }

  lemma SubmitKeepsTrue(r: Run, s: Sys, id: nat, act: SubmitAct)
    requires Exec(r.cfg, r.start, r.steps) == Some(s) && AllTrue(r, s) && Inv(s)
    requires NextSubmit(r.cfg, s, id, act).Some?
    ensures AllTrue(Then(r, Submit(id, act)), NextSubmit(r.cfg, s, id, act).value)
  {
    TruthsLast(r, Submit(id, act), s);
    SubmitFrame(r.cfg, s, id, act);
    OwnSubmitterTrue(r, s, id, act);
    if act.WatchSent? {
      WatchTrue(r, s, id);
    }
  }

  lemma BidTrue(r: Run, s: Sys, before: real)
    requires Exec(r.cfg, r.start, r.steps) == Some(s)
    ensures Outbid(r, before, ReplacementPrice(before, s.svc.gasPrice))
  {
    assert r.steps[..|r.steps|] == r.steps;
    assert Was(r, |r.steps|, s);
  }

  lemma StartedTrue(r: Run, s: Sys, items: Items, hs: set<TxHash>)
    requires Exec(r.cfg, r.start, r.steps) == Some(s) && ItemsTrue(r, items)
    ensures forall h :: h in StartTasks(s.svc, items, hs) ==>
      h in items && items[h].Some? && TaskTrue(r, items[h].value.gasPrice, StartTasks(s.svc, items, hs)[h])
  {
    forall h | h in items && items[h].Some?
      ensures Outbid(r, items[h].value.gasPrice, ReplacementPrice(items[h].value.gasPrice, s.svc.gasPrice))
    {
      BidTrue(r, s, items[h].value.gasPrice);
    }
  }

  lemma ReplaceTrue(r: Run, s: Sys, p: nat, h: TxHash)
    requires Exec(r.cfg, r.start, r.steps) == Some(s) && AllTrue(r, s) && Inv(s)
    requires p in s.passes && HasTask(s.passes[p], h) && NextTask(r.cfg, s, p, ReplaceOk(h), h).Some?
    ensures CacheTrue(Then(r, Check(p, ReplaceOk(h))), NextTask(r.cfg, s, p, ReplaceOk(h), h).value)
  {
    var step, t := Check(p, ReplaceOk(h)), NextTask(r.cfg, s, p, ReplaceOk(h), h).value;
    var q, c := Then(r, step), s.passes[p].items[h].value;
    Now(r, step, s);
    TruthsLast(r, step, s);
    assert PassTrue(q, s.passes[p]) && ItemsTrue(q, s.passes[p].items);
    var letter := ReplacementHash(c, s.passes[p].tasks[h].attempt.price);
    assert ReplacedAt(q, h, s.now) && EntryTrue(q, h, c);
    assert EntryTrue(q, letter, t.svc.cache[letter]);
  }

  lemma TaskFrame(cfg: Config, s: Sys, p: nat, act: CheckAct, h: TxHash)
    requires p in s.passes && HasTask(s.passes[p], h) && NextTask(cfg, s, p, act, h).Some?
    ensures var t := NextTask(cfg, s, p, act, h).value;
      && t.submitters == s.submitters && p in t.passes && HasTask(t.passes[p], h)
      && t.passes == s.passes[p := s.passes[p].(tasks := s.passes[p].tasks[h := t.passes[p].tasks[h]])]
      && (forall g :: g in t.svc.cache && !act.ReplaceOk? ==> g in s.svc.cache && t.svc.cache[g] == s.svc.cache[g])
  {
  }

  lemma BidKept(r: Run, s: Sys, p: nat, act: CheckAct, h: TxHash)
    requires p in s.passes && HasTask(s.passes[p], h) && NextTask(r.cfg, s, p, act, h).Some? && PassTrue(r, s.passes[p])
    requires Exec(r.cfg, r.start, r.steps) == Some(NextTask(r.cfg, s, p, act, h).value)
    ensures TaskTrue(r, s.passes[p].items[h].value.gasPrice, NextTask(r.cfg, s, p, act, h).value.passes[p].tasks[h])
  {
    BidTrue(r, NextTask(r.cfg, s, p, act, h).value, s.passes[p].items[h].value.gasPrice);
  }

  lemma TaskKeepsTrue(r: Run, s: Sys, p: nat, act: CheckAct, h: TxHash)
    requires Exec(r.cfg, r.start, r.steps) == Some(s) && AllTrue(r, s) && Inv(s)
    requires p in s.passes && HasTask(s.passes[p], h) && NextTask(r.cfg, s, p, act, h).Some?
    requires IsTaskAct(act) && act.hash == h
    requires Exec(r.cfg, r.start, r.steps + [Check(p, act)]) == Some(NextTask(r.cfg, s, p, act, h).value)
    ensures AllTrue(Then(r, Check(p, act)), NextTask(r.cfg, s, p, act, h).value)
  {
    var q, t := Then(r, Check(p, act)), NextTask(r.cfg, s, p, act, h).value;
    TruthsLast(r, Check(p, act), s);
    TaskFrame(r.cfg, s, p, act, h);
    assert PassTrue(q, s.passes[p]);
    BidKept(q, s, p, act, h);
    assert PassTrue(q, t.passes[p]);
    if act.ReplaceOk? {
      ReplaceTrue(r, s, p, h);
    }
  }

  lemma StageKeepsTrue(r: Run, s: Sys, p: nat, act: CheckAct)
    requires Exec(r.cfg, r.start, r.steps) == Some(s) && AllTrue(r, s)
    requires NextCheck(r.cfg, s, p, act).Some? && !IsTaskAct(act)
    requires Exec(r.cfg, r.start, r.steps + [Check(p, act)]) == NextCheck(r.cfg, s, p, act)
    ensures AllTrue(Then(r, Check(p, act)), NextCheck(r.cfg, s, p, act).value)
  {
    var q, t := Then(r, Check(p, act)), NextCheck(r.cfg, s, p, act).value;
    TruthsLast(r, Check(p, act), s);
    if act.Judge? {
      assert PassTrue(q, s.passes[p]);
      StartedTrue(q, t, s.passes[p].items, s.passes[p].low);
    } else if act.NextStage? {
      assert PassTrue(q, s.passes[p]);
      StartedTrue(q, t, s.passes[p].items, s.passes[p].expired);
    }
    if p in t.passes {
      assert PassTrue(q, t.passes[p]);
    }
  }

  lemma ExecThen(cfg: Config, s0: Sys, steps: seq<Step>, step: Step)
    requires Exec(cfg, s0, steps).Some?
    ensures Exec(cfg, s0, steps + [step]) == Next(cfg, Exec(cfg, s0, steps).value, step)
  {
    assert (steps + [step])[..|steps|] == steps;
  }

  lemma StepKeepsTrue(r: Run, s: Sys, step: Step)
    requires Exec(r.cfg, r.start, r.steps) == Some(s) && AllTrue(r, s) && Inv(s) && Next(r.cfg, s, step).Some?
    ensures AllTrue(Then(r, step), Next(r.cfg, s, step).value)
  {
    ExecThen(r.cfg, r.start, r.steps, step);
    TruthsLast(r, step, s);
    match step
    case Submit(id, act) => SubmitKeepsTrue(r, s, id, act);
    case Check(p, act) =>
      if IsTaskAct(act) {
        TaskKeepsTrue(r, s, p, act, act.hash);
      } else {
        StageKeepsTrue(r, s, p, act);
      }
    case GasTick(_) =>
    case Clock(_) =>
  }

  lemma {:induction false} RunKeepsTrue(cfg: Config, raw: Option<real>, count: int, pool: seq<TxHash>, now: int,
                                       steps: seq<Step>)
    requires Exec(cfg, Boot(cfg, raw, count, pool, now), steps).Some?
    ensures var s0 := Boot(cfg, raw, count, pool, now);
      AllTrue(Run(cfg, s0, steps), Exec(cfg, s0, steps).value)
  {
    var s0 := Boot(cfg, raw, count, pool, now);
    if steps == [] {
      WatchPoolContents(Service(count, UpdatedPrice(cfg, cfg.fallback, raw), {}, map[]), pool, now, cfg.timeoutMs);
    } else {
      var front, last := steps[..|steps| - 1], steps[|steps| - 1];
      RunKeepsTrue(cfg, raw, count, pool, now, front);
      BootInv(cfg, raw, count, pool, now);
      RunKeepsInv(cfg, s0, front);
      StepKeepsTrue(Run(cfg, s0, front), Exec(cfg, s0, front).value, last);
      assert steps == front + [last];
    }
  }

  /** In every run, every cache entry tells the truth. A submission carries its own data, was broadcast at
      the gas price and with the nonce found when it took the lock, and is cached with the price and time of
      the moment it came under watch. A pooled transaction was pending at start-up. A dead letter is an empty
      transfer with the nonce of what it replaced, accepted at the time recorded, with twice the expiry, at
      1.4 times the price or the gas price of some moment if that was higher, and so on down the chain. */
  lemma CacheTellsTruth(cfg: Config, raw: Option<real>, count: int, pool: seq<TxHash>, now: int,
                        steps: seq<Step>, h: TxHash)
    requires Exec(cfg, Boot(cfg, raw, count, pool, now), steps).Some?
    requires h in Exec(cfg, Boot(cfg, raw, count, pool, now), steps).value.svc.cache
    ensures var s0 := Boot(cfg, raw, count, pool, now);
      EntryTrue(Run(cfg, s0, steps), h, Exec(cfg, s0, steps).value.svc.cache[h])
  {
    RunKeepsTrue(cfg, raw, count, pool, now, steps);
  }
}
