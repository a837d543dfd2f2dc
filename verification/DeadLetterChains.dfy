/** Chains of replacements: what k dead letters in a row do to the nonce, the expiry and the price
    of a transaction, over every run of the relayer. */
module DeadLetterChains {
  import opened Common
  import opened GasPricing
  import opened RelayerService
  import opened RelayerSystem
  import RelayerNonces

  /** The number of replacements that led to an entry. */
  function Depth(c: Cached): nat {
    if c.origin.Replacement? then Depth(c.origin.parent) + 1 else 0
  }

  /** The entry the chain started from. */
  function Root(c: Cached): Cached {
    if c.origin.Replacement? then Root(c.origin.parent) else c
  }

  function CountReason(c: Cached, reason: Reason): nat {
    if c.origin.Replacement?
    then CountReason(c.origin.parent, reason) + if c.origin.reason == reason then 1 else 0
    else 0
  }

  /** What one replacement guarantees about the entry it makes and the one it replaces. */
  ghost predicate Link(cfg: Config, parent: Cached, reason: Reason, c: Cached) {
    && c.nonce == parent.nonce
    && c.expireIn == 2 * parent.expireIn
    && PriceLink(cfg, parent.gasPrice, c.gasPrice)
    && parent.seenAt <= c.seenAt
    && (reason.Expired? ==> c.seenAt - parent.seenAt > parent.expireIn)
    && (reason.GasTooLow? ==> parent.gasPrice < cfg.maxGasPrice)
  }

  ghost predicate PriceLink(cfg: Config, before: real, after: real) {
    before * BUMP <= after <= MaxReal(before * BUMP, cfg.maxGasPrice)
  }

  ghost predicate Chain(cfg: Config, c: Cached) {
    match c.origin
    case Submitted => c.expireIn == cfg.timeoutMs && c.gasPrice <= cfg.maxGasPrice
    case Pooled => c.expireIn == cfg.timeoutMs
    case Replacement(parent, reason) => Chain(cfg, parent) && Link(cfg, parent, reason, c)
  }

  ghost predicate EntryOk(cfg: Config, now: int, h: TxHash, c: Cached) {
    && Chain(cfg, c)
    && 0 < c.seenAt <= now
    && c.nonce == h.nonce
    && (c.origin != Submitted ==> ToWei(c.gasPrice) == h.price)
  }

  ghost predicate TaskOk(cfg: Config, now: int, reason: Reason, c: Cached, t: Task) {
    && (reason.GasTooLow? ==> c.gasPrice < cfg.maxGasPrice)
    && (reason.Expired? ==> now - c.seenAt > c.expireIn)
    && (t.attempt.InFlight? ==> PriceLink(cfg, c.gasPrice, t.attempt.price))
  }

  ghost predicate ItemsOk(cfg: Config, now: int, items: Items) {
    forall h :: h in items ==> items[h].Some? && EntryOk(cfg, now, h, items[h].value)
  }

  ghost predicate PassOk(cfg: Config, now: int, pass: Pass) {
    && ItemsOk(cfg, now, pass.items)
    && (pass.Classified? ==>
          forall h :: h in pass.low ==> h in pass.items && pass.items[h].value.gasPrice < cfg.maxGasPrice)
    && (pass.Replacing? ==>
          && (forall h :: h in pass.expired ==>
                h in pass.items && now - pass.items[h].value.seenAt > pass.items[h].value.expireIn)
          && (forall h :: h in pass.tasks ==>
                h in pass.items && TaskOk(cfg, now, pass.reason, pass.items[h].value, pass.tasks[h])))
  }

  ghost predicate Inv(cfg: Config, s: Sys) {
    && s.svc.gasPrice <= cfg.maxGasPrice
    && 0 < s.now
    && s.svc.watched == s.svc.cache.Keys
    && (forall h :: h in s.svc.cache ==> EntryOk(cfg, s.now, h, s.svc.cache[h]))
    && (forall p :: p in s.passes ==> PassOk(cfg, s.now, s.passes[p]))
  }

  lemma ToWeiOfInt(w: int)
    ensures ToWei(w as real) == w
  {
  }

  lemma BootInv(cfg: Config, raw: Option<real>, count: int, pool: seq<TxHash>, now: int)
    requires cfg.fallback <= cfg.maxGasPrice && 0 < now
    ensures RelayerNonces.Inv(Boot(cfg, raw, count, pool, now)) && Inv(cfg, Boot(cfg, raw, count, pool, now))
  {
    RelayerNonces.BootInv(cfg, raw, count, pool, now);
    UpdateStaysCapped(cfg, cfg.fallback, raw);
    WatchPoolContents(Service(count, UpdatedPrice(cfg, cfg.fallback, raw), {}, map[]), pool, now, cfg.timeoutMs);
    forall h | h in pool
      ensures ToWei(h.price as real) == h.price
    {
      ToWeiOfInt(h.price);
    }
  }

  lemma StartedTasksOk(cfg: Config, s: Service, now: int, items: Items, hs: set<TxHash>, reason: Reason)
    requires s.gasPrice <= cfg.maxGasPrice && ItemsOk(cfg, now, items) && hs <= items.Keys
    requires reason.GasTooLow? ==> forall h :: h in hs ==> items[h].value.gasPrice < cfg.maxGasPrice
    requires reason.Expired? ==> forall h :: h in hs ==> now - items[h].value.seenAt > items[h].value.expireIn
    ensures var tasks := StartTasks(s, items, hs);
      forall h :: h in tasks ==> h in items && TaskOk(cfg, now, reason, items[h].value, tasks[h])
  {
  }

  lemma ReplaceKeepsInv(cfg: Config, s: Sys, p: nat, h: TxHash)
    requires Inv(cfg, s) && p in s.passes && HasTask(s.passes[p], h)
    requires NextTask(cfg, s, p, ReplaceOk(h), h).Some?
    ensures Inv(cfg, NextTask(cfg, s, p, ReplaceOk(h), h).value)
  {
  }

  lemma SetTaskOk(cfg: Config, now: int, pass: Pass, h: TxHash, t: Task)
    requires PassOk(cfg, now, pass) && HasTask(pass, h) && TaskOk(cfg, now, pass.reason, pass.items[h].value, t)
    ensures PassOk(cfg, now, pass.(tasks := pass.tasks[h := t]))
  {
  }

  /** A task that is retried at the current price, or given up. */
  lemma AgainTaskOk(cfg: Config, svc: Service, now: int, reason: Reason, c: Cached, t: Task)
    requires svc.gasPrice <= cfg.maxGasPrice && TaskOk(cfg, now, reason, c, t)
    ensures TaskOk(cfg, now, reason, c, AgainTask(svc, c, t))
  {
  }

  lemma FailKeepsInv(cfg: Config, s: Sys, p: nat, h: TxHash, error: SendError)
    requires Inv(cfg, s) && p in s.passes && HasTask(s.passes[p], h)
    requires NextTask(cfg, s, p, ReplaceFail(h, error), h).Some?
    ensures Inv(cfg, NextTask(cfg, s, p, ReplaceFail(h, error), h).value)
  {
    var pass := s.passes[p];
    var c, t := pass.items[h].value, pass.tasks[h];
    assert PassOk(cfg, s.now, pass);
    AgainTaskOk(cfg, s.svc, s.now, pass.reason, c, t);
    SetTaskOk(cfg, s.now, pass, h, NextTask(cfg, s, p, ReplaceFail(h, error), h).value.passes[p].tasks[h]);
  }

  lemma RepricedKeepsInv(cfg: Config, s: Sys, p: nat, h: TxHash, raw: Option<real>)
    requires cfg.fallback <= cfg.maxGasPrice
    requires Inv(cfg, s) && p in s.passes && HasTask(s.passes[p], h)
    requires NextTask(cfg, s, p, Repriced(h, raw), h).Some?
    ensures Inv(cfg, NextTask(cfg, s, p, Repriced(h, raw), h).value)
  {
    var pass := s.passes[p];
    var next := NextTask(cfg, s, p, Repriced(h, raw), h).value;
    assert PassOk(cfg, s.now, pass);
    UpdateStaysCapped(cfg, s.svc.gasPrice, raw);
    AgainTaskOk(cfg, next.svc, s.now, pass.reason, pass.items[h].value, pass.tasks[h]);
    SetTaskOk(cfg, s.now, pass, h, next.passes[p].tasks[h]);
  }

  lemma CheckKeepsInv(cfg: Config, s: Sys, p: nat, act: CheckAct)
    requires cfg.fallback <= cfg.maxGasPrice
    requires Inv(cfg, s) && NextCheck(cfg, s, p, act).Some?
    ensures Inv(cfg, NextCheck(cfg, s, p, act).value)
  {
    match act
    case ReplaceOk(h) => ReplaceKeepsInv(cfg, s, p, h);
    case ReplaceFail(h, _) => FailKeepsInv(cfg, s, p, h, act.error);
    case Repriced(h, raw) => RepricedKeepsInv(cfg, s, p, h, raw);
    case Judge =>
      var pass := s.passes[p];
      StartedTasksOk(cfg, s.svc, s.now, pass.items, pass.low, GasTooLow);
      assert PassOk(cfg, s.now, NextCheck(cfg, s, p, act).value.passes[p]);
    case NextStage =>
      var pass := s.passes[p];
      if pass.reason.GasTooLow? {
        StartedTasksOk(cfg, s.svc, s.now, pass.items, pass.expired, Expired);
      }
      assert PassOk(cfg, s.now, NextCheck(cfg, s, p, act).value.passes[p]);
    case Start =>
      assert ItemsOk(cfg, s.now, Snapshot(s.svc));
    case _ =>
  }

  lemma ClockKeepsPass(cfg: Config, now: int, later: int, pass: Pass)
    requires PassOk(cfg, now, pass) && now <= later
    ensures PassOk(cfg, later, pass)
  {
  }

  lemma StepKeepsInv(cfg: Config, s: Sys, step: Step)
    requires cfg.fallback <= cfg.maxGasPrice
    requires RelayerNonces.Inv(s) && Inv(cfg, s) && Next(cfg, s, step).Some?
    ensures Inv(cfg, Next(cfg, s, step).value)
  {
    match step
    case Submit(id, act) => SubmitKeepsInv(cfg, s, id, act);
    case Check(p, act) => CheckKeepsInv(cfg, s, p, act);
    case GasTick(raw) => UpdateStaysCapped(cfg, s.svc.gasPrice, raw);
    case Clock(ms) =>
      forall p | p in s.passes
        ensures PassOk(cfg, s.now + ms, s.passes[p])
      {
        ClockKeepsPass(cfg, s.now, s.now + ms, s.passes[p]);
      }
  }

  lemma SubmitKeepsInv(cfg: Config, s: Sys, id: nat, act: SubmitAct)
    requires cfg.fallback <= cfg.maxGasPrice
    requires RelayerNonces.Inv(s) && Inv(cfg, s) && NextSubmit(cfg, s, id, act).Some?
    ensures Inv(cfg, NextSubmit(cfg, s, id, act).value)
  {
  }

  lemma {:induction false} RunKeepsInv(cfg: Config, s: Sys, steps: seq<Step>)
    requires cfg.fallback <= cfg.maxGasPrice
    requires RelayerNonces.Inv(s) && Inv(cfg, s) && Exec(cfg, s, steps).Some?
    ensures Inv(cfg, Exec(cfg, s, steps).value)
  {
    if steps == [] {
    } else {
      RunKeepsInv(cfg, s, steps[..|steps| - 1]);
      RelayerNonces.RunKeepsInv(cfg, s, steps[..|steps| - 1]);
      StepKeepsInv(cfg, Exec(cfg, s, steps[..|steps| - 1]).value, steps[|steps| - 1]);
    }
  }

  /** After k replacements the nonce is the first one and the expiry has doubled k times. */
  ghost predicate BackoffBounds(cfg: Config, c: Cached) {
    && c.nonce == Root(c).nonce
    && c.expireIn == PowerOfTwo(Depth(c)) * cfg.timeoutMs
  }

  /** After k replacements the price lies between 1.4^k times the first cached price and 1.4^k
      times `top`, an upper bound of the cap and of the first price. */
  ghost predicate PriceBounds(c: Cached, top: real) {
    Grown(Root(c).gasPrice, Depth(c)) <= c.gasPrice <= Grown(top, Depth(c))
  }

  /** e Expired replacements need more than (2^e - 1) timeouts. */
  ghost predicate ElapsedBounds(cfg: Config, c: Cached) {
    var e, elapsed := CountReason(c, Expired), c.seenAt - Root(c).seenAt;
    && 0 <= elapsed
    && (e > 0 ==> elapsed > (PowerOfTwo(e) - 1) * cfg.timeoutMs)
  }

  lemma Doubling(k: nat, timeout: int)
    ensures PowerOfTwo(k + 1) * timeout == 2 * (PowerOfTwo(k) * timeout)
  {
  }

  lemma {:induction false} BackoffIsBounded(cfg: Config, c: Cached)
    requires Chain(cfg, c)
    ensures BackoffBounds(cfg, c)
  {
    if c.origin.Replacement? {
      BackoffIsBounded(cfg, c.origin.parent);
      Doubling(Depth(c.origin.parent), cfg.timeoutMs);
    } else {
      assert PowerOfTwo(0) == 1;
    }
  }

  lemma {:induction false} PriceIsBounded(cfg: Config, c: Cached, top: real)
    requires Chain(cfg, c) && 0.0 <= cfg.maxGasPrice <= top && Root(c).gasPrice <= top
    ensures PriceBounds(c, top)
  {
    if !c.origin.Replacement? {
    } else {
      PriceIsBounded(cfg, c.origin.parent, top);
      GrownMonotone(top, 0, Depth(c));
    }
  }

  lemma {:induction false} RootIsChain(cfg: Config, c: Cached)
    requires Chain(cfg, c)
    ensures Chain(cfg, Root(c)) && !Root(c).origin.Replacement?
  {
    if !c.origin.Replacement? {
    } else {
      RootIsChain(cfg, c.origin.parent);
    }
  }

  lemma ExpiryStep(e: nat, k: nat, timeout: int, elapsed: int, expireIn: int)
    requires e <= k && 0 <= timeout
    requires expireIn == PowerOfTwo(k) * timeout
    requires elapsed > (PowerOfTwo(e) - 1) * timeout + expireIn
    ensures elapsed > (PowerOfTwo(e + 1) - 1) * timeout
  {
    PowerMonotone(e, k);
    assert PowerOfTwo(k) * timeout >= PowerOfTwo(e) * timeout;
    assert (PowerOfTwo(e + 1) - 1) * timeout == (PowerOfTwo(e) - 1) * timeout + PowerOfTwo(e) * timeout;
  }

  lemma {:induction false} CountWithinDepth(c: Cached, reason: Reason)
    ensures CountReason(c, reason) <= Depth(c)
  {
    if !c.origin.Replacement? {
    } else {
      CountWithinDepth(c.origin.parent, reason);
    }
  }

  lemma {:induction false} ElapsedIsBounded(cfg: Config, c: Cached)
    requires 0 <= cfg.timeoutMs && Chain(cfg, c)
    ensures ElapsedBounds(cfg, c)
  {
    if !c.origin.Replacement? {
    } else {
      var parent := c.origin.parent;
      ElapsedIsBounded(cfg, parent);
      if c.origin.reason.Expired? {
        BackoffIsBounded(cfg, parent);
        CountWithinDepth(parent, Expired);
        assert PowerOfTwo(0) == 1;
        ExpiryStep(CountReason(parent, Expired), Depth(parent), cfg.timeoutMs,
                   c.seenAt - Root(c).seenAt, parent.expireIn);
      }
    }
  }

  /** Dead-letter chain bounds for every watched entry of every run: k replacements keep the
      nonce, double the expiry k times, and keep the price between 1.4^k times the first cached
      price and 1.4^k times the cap; e expiries need more than (2^e - 1) timeouts. */
  lemma WatchedChainsAreBounded(cfg: Config, raw: Option<real>, count: int, pool: seq<TxHash>, now: int,
                                steps: seq<Step>, h: TxHash)
    requires cfg.fallback <= cfg.maxGasPrice && 0.0 <= cfg.maxGasPrice && 0 <= cfg.timeoutMs && 0 < now
    requires Exec(cfg, Boot(cfg, raw, count, pool, now), steps).Some?
    requires h in Exec(cfg, Boot(cfg, raw, count, pool, now), steps).value.svc.cache
    ensures var s := Exec(cfg, Boot(cfg, raw, count, pool, now), steps).value;
      var c := s.svc.cache[h];
      && BackoffBounds(cfg, c)
      && PriceBounds(c, MaxReal(cfg.maxGasPrice, Root(c).gasPrice))
      && (Root(c).origin.Submitted? ==> PriceBounds(c, cfg.maxGasPrice))
      && ElapsedBounds(cfg, c)
      && c.seenAt <= s.now
  {
    BootInv(cfg, raw, count, pool, now);
    RunKeepsInv(cfg, Boot(cfg, raw, count, pool, now), steps);
    var s := Exec(cfg, Boot(cfg, raw, count, pool, now), steps).value;
    var c := s.svc.cache[h];
    assert EntryOk(cfg, s.now, h, c);
    BackoffIsBounded(cfg, c);
    RootIsChain(cfg, c);
    PriceIsBounded(cfg, c, MaxReal(cfg.maxGasPrice, Root(c).gasPrice));
    if Root(c).origin.Submitted? {
      PriceIsBounded(cfg, c, cfg.maxGasPrice);
    }
    ElapsedIsBounded(cfg, c);
  }

  /** The number of GasTooLow replacements a chain that starts at price `first` can ever see. */
  function LowLimit(cap: real, first: real): int
    requires first > 0.0
  {
    (cap / (0.4 * first)).Floor + 1
  }

  lemma LowLimitSuffices(cap: real, first: real)
    requires 0.0 <= cap && 0.0 < first
    ensures LowLimit(cap, first) >= 0
    ensures Grown(first, LowLimit(cap, first)) >= cap
  {
    var q := cap / (0.4 * first);
    assert q >= 0.0;
    assert q * (0.4 * first) == cap;
    var n := LowLimit(cap, first);
    assert n as real >= q;
    GrownAtLeast(first, n);
    assert (n as real) * (0.4 * first) >= q * (0.4 * first);
  }

  lemma BelowCapBelowLimit(j: nat, n: nat, first: real, cap: real)
    requires 0.0 < first && Grown(first, j) < cap <= Grown(first, n)
    ensures j < n
  {
    if n <= j {
      GrownMonotone(first, n, j);
    }
  }

  /** A GasTooLow replacement happened only while the grown first price was below the cap. */
  ghost predicate LowOnlyBelowCap(cfg: Config, c: Cached) {
    c.origin.Replacement? && c.origin.reason.GasTooLow? ==>
      Grown(Root(c).gasPrice, Depth(c.origin.parent)) < cfg.maxGasPrice
  }

  ghost predicate LowBounds(cfg: Config, c: Cached)
    requires Root(c).gasPrice > 0.0
  {
    && CountReason(c, GasTooLow) <= LowLimit(cfg.maxGasPrice, Root(c).gasPrice)
    && LowOnlyBelowCap(cfg, c)
  }

  lemma LowIsBelowCap(cfg: Config, c: Cached)
    requires 0.0 <= cfg.maxGasPrice && Chain(cfg, c)
    ensures LowOnlyBelowCap(cfg, c)
  {
    if c.origin.Replacement? && c.origin.reason.GasTooLow? {
      PriceIsBounded(cfg, c.origin.parent, MaxReal(cfg.maxGasPrice, Root(c).gasPrice));
    }
  }

  lemma {:induction false} LowReplacementsBounded(cfg: Config, c: Cached, limit: nat)
    requires 0.0 <= cfg.maxGasPrice && Chain(cfg, c) && Root(c).gasPrice > 0.0
    requires Grown(Root(c).gasPrice, limit) >= cfg.maxGasPrice
    ensures CountReason(c, GasTooLow) <= limit
  {
    if !c.origin.Replacement? {
    } else {
      var parent := c.origin.parent;
      LowReplacementsBounded(cfg, parent, limit);
      if c.origin.reason.GasTooLow? {
        LowIsBelowCap(cfg, c);
        CountWithinDepth(parent, GasTooLow);
        BelowCapBelowLimit(Depth(parent), limit, Root(c).gasPrice, cfg.maxGasPrice);
      }
    }
  }

  lemma LowWithinLimit(cfg: Config, c: Cached)
    requires 0.0 <= cfg.maxGasPrice && Chain(cfg, c) && Root(c).gasPrice > 0.0
    ensures LowBounds(cfg, c)
  {
    LowIsBelowCap(cfg, c);
    LowLimitSuffices(cfg.maxGasPrice, Root(c).gasPrice);
    LowReplacementsBounded(cfg, c, LowLimit(cfg.maxGasPrice, Root(c).gasPrice));
  }

  /** GasTooLow replacements terminate: however the gas price moves, a watched entry whose chain
      began at a positive price has seen at most `LowLimit` of them, and one at depth j happened
      only while 1.4^j times the first price was below the cap. */
  lemma GasTooLowTerminates(cfg: Config, raw: Option<real>, count: int, pool: seq<TxHash>, now: int,
                            steps: seq<Step>, h: TxHash)
    requires cfg.fallback <= cfg.maxGasPrice && 0.0 <= cfg.maxGasPrice && 0 <= cfg.timeoutMs && 0 < now
    requires Exec(cfg, Boot(cfg, raw, count, pool, now), steps).Some?
    requires var s := Exec(cfg, Boot(cfg, raw, count, pool, now), steps).value;
      h in s.svc.cache && Root(s.svc.cache[h]).gasPrice > 0.0
    ensures LowBounds(cfg, Exec(cfg, Boot(cfg, raw, count, pool, now), steps).value.svc.cache[h])
  {
    BootInv(cfg, raw, count, pool, now);
    RunKeepsInv(cfg, Boot(cfg, raw, count, pool, now), steps);
    var s := Exec(cfg, Boot(cfg, raw, count, pool, now), steps).value;
    var c := s.svc.cache[h];
    assert EntryOk(cfg, s.now, h, c);
    LowWithinLimit(cfg, c);
  }
}
