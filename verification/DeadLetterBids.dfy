/** Whether a dead letter outbids the transaction it replaces, over every run and for every price. */
module DeadLetterBids {
  import opened Common
  import opened GasPricing
  import opened RelayerService
  import opened RelayerSystem
  import RelayerNonces

  /** Everything but a submission is cached at the price it was broadcast at. */
  ghost predicate Priced(h: TxHash, c: Cached) {
    c.origin.Submitted? || ToWei(c.gasPrice) == h.price
  }

  ghost predicate ItemsPriced(items: Items) {
    forall h :: h in items && items[h].Some? ==> Priced(h, items[h].value)
  }

  /** The price of an attempt is determined by the cached price and the gas price it has read. */
  ghost predicate TasksPriced(items: Items, tasks: map<TxHash, Task>) {
    forall h :: h in tasks && h in items && items[h].Some? && tasks[h].attempt.InFlight? ==>
      tasks[h].attempt.price == ReplacementPrice(items[h].value.gasPrice, tasks[h].attempt.current)
  }

  ghost predicate PassPriced(pass: Pass) {
    ItemsPriced(pass.items) && (pass.Replacing? ==> TasksPriced(pass.items, pass.tasks))
  }

  ghost predicate BidInv(s: Sys) {
    && (forall h :: h in s.svc.cache ==> Priced(h, s.svc.cache[h]))
    && (forall p :: p in s.passes ==> PassPriced(s.passes[p]))
  }

  lemma BootBids(cfg: Config, raw: Option<real>, count: int, pool: seq<TxHash>, now: int)
    ensures BidInv(Boot(cfg, raw, count, pool, now))
  {
    WatchPoolContents(Service(count, UpdatedPrice(cfg, cfg.fallback, raw), {}, map[]), pool, now, cfg.timeoutMs);
  }

  lemma SubmitKeepsBids(cfg: Config, s: Sys, id: nat, act: SubmitAct)
    requires BidInv(s) && NextSubmit(cfg, s, id, act).Some?
    ensures BidInv(NextSubmit(cfg, s, id, act).value)
  {
  }

  lemma TaskKeepsBids(cfg: Config, s: Sys, p: nat, act: CheckAct, h: TxHash)
    requires BidInv(s) && p in s.passes && HasTask(s.passes[p], h) && NextTask(cfg, s, p, act, h).Some?
    ensures BidInv(NextTask(cfg, s, p, act, h).value)
  {
    assert PassPriced(s.passes[p]);
    assert PassPriced(NextTask(cfg, s, p, act, h).value.passes[p]);
  }

  lemma CheckKeepsBids(cfg: Config, s: Sys, p: nat, act: CheckAct)
    requires BidInv(s) && NextCheck(cfg, s, p, act).Some?
    ensures BidInv(NextCheck(cfg, s, p, act).value)
  {
    if RelayerNonces.IsTaskAct(act) {
      TaskKeepsBids(cfg, s, p, act, act.hash);
    } else if p in s.passes {
      assert PassPriced(s.passes[p]);
    }
  }

  lemma {:induction false} RunKeepsBids(cfg: Config, s: Sys, steps: seq<Step>)
    requires BidInv(s) && Exec(cfg, s, steps).Some?
    ensures BidInv(Exec(cfg, s, steps).value)
  {
    if steps == [] {
    } else {
      RunKeepsBids(cfg, s, steps[..|steps| - 1]);
      var m := Exec(cfg, s, steps[..|steps| - 1]).value;
      match steps[|steps| - 1]
      case Submit(id, act) => SubmitKeepsBids(cfg, m, id, act);
      case Check(p, act) => CheckKeepsBids(cfg, m, p, act);
      case GasTick(_) =>
      case Clock(_) =>
    }
  }

  /** The dead letter that replaces h: it keeps the nonce, and it bids at least 10% above what h was
      broadcast at exactly when 1.4 times the cached price or the gas price it read suffices. */
  ghost predicate OutbidsWhenSufficient(h: TxHash, c: Cached, current: real, letter: TxHash) {
    && letter.nonce == h.nonce
    && (TenPercentAbove(h.price, letter.price) <==>
          BidSuffices(c.gasPrice * BUMP, h.price) || BidSuffices(current, h.price))
    && (c.origin.Submitted? || ToWei(c.gasPrice) == h.price)
    && (14.0 * c.gasPrice >= 25.0 && ToWei(c.gasPrice) == h.price ==> TenPercentAbove(h.price, letter.price))
  }

  lemma AcceptedBid(cfg: Config, s: Sys, p: nat, h: TxHash)
    requires RelayerNonces.Inv(s) && BidInv(s) && Next(cfg, s, Check(p, ReplaceOk(h))).Some?
    ensures var t := Next(cfg, s, Check(p, ReplaceOk(h))).value;
      && |t.replacements| == |s.replacements| + 1
      && OutbidsWhenSufficient(h, s.passes[p].items[h].value, s.passes[p].tasks[h].attempt.current,
                               t.replacements[|s.replacements|])
  {
    var c, current := s.passes[p].items[h].value, s.passes[p].tasks[h].attempt.current;
    assert PassPriced(s.passes[p]);
    OneSuffices(c.gasPrice, current, h.price);
    if 14.0 * c.gasPrice >= 25.0 {
      RoundedBumpFromTwoWei(c.gasPrice, current);
    }
  }

  /** In every run, a dead letter that the node accepts bids at least 10% above the transaction it replaces
      exactly when 1.4 times the cached price or the gas price at the start of the attempt reaches the
      minimum bid for the price that transaction was broadcast at. So a cached price, read again after
      the send, may lag behind the broadcast one down to 1/1.4 of that minimum. In particular the bid
      suffices whenever the entry is cached at 25/14 wei or more and at its broadcast price, as entries
      of the pool and earlier dead letters are. */
  lemma OutbidsExactly(cfg: Config, raw: Option<real>, count: int, pool: seq<TxHash>, now: int,
                       steps: seq<Step>, p: nat, h: TxHash)
    requires Exec(cfg, Boot(cfg, raw, count, pool, now), steps).Some?
    requires Next(cfg, Exec(cfg, Boot(cfg, raw, count, pool, now), steps).value, Check(p, ReplaceOk(h))).Some?
    ensures var s := Exec(cfg, Boot(cfg, raw, count, pool, now), steps).value;
      var t := Next(cfg, s, Check(p, ReplaceOk(h))).value;
      && |t.replacements| == |s.replacements| + 1
      && OutbidsWhenSufficient(h, s.passes[p].items[h].value, s.passes[p].tasks[h].attempt.current,
                               t.replacements[|s.replacements|])
  {
    var s0 := Boot(cfg, raw, count, pool, now);
    RelayerNonces.BootInv(cfg, raw, count, pool, now);
    RelayerNonces.RunKeepsInv(cfg, s0, steps);
    BootBids(cfg, raw, count, pool, now);
    RunKeepsBids(cfg, s0, steps);
    AcceptedBid(cfg, Exec(cfg, s0, steps).value, p, h);
  }
}
