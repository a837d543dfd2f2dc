/** Which gas price the relayer works with after any run: the last one it could fetch, scaled and capped. */
module RelayerPrices {
  import opened Common
  import opened GasPricing
  import opened RelayerService
  import opened RelayerSystem

  /** What a step has fetched from the node, if it asks for the price: None inside when the fetch threw. */
  function Fetched(step: Step): seq<Option<real>> {
    match step
    case GasTick(raw) => [raw]
    case Submit(_, Refreshed(raw)) => [raw]
    case Check(_, Repriced(_, raw)) => [raw]
    case _ => []
  }

  function Fetches(steps: seq<Step>): seq<Option<real>> {
    if steps == [] then [] else Fetches(steps[..|steps| - 1]) + Fetched(steps[|steps| - 1])
  }

  /** The last fetch that went through. */
  ghost predicate LastFetch(fetches: seq<Option<real>>, k: int) {
    && 0 <= k < |fetches| && fetches[k].Some?
    && forall j :: k < j < |fetches| ==> fetches[j].None?
  }

  /** A price as configured: scaled by the multiplier, and the cap where that is more. */
  ghost predicate ScaledAndCapped(cfg: Config, fetched: real, price: real) {
    && price <= cfg.maxGasPrice && price <= fetched * cfg.multiplier
    && (price == cfg.maxGasPrice || price == fetched * cfg.multiplier)
  }

  /** The price after some fetches, the first of them at start-up: that of the last one that went through,
      and the fallback if none did. A price of zero is given up for the fallback by the next failure. */
  ghost predicate PriceIs(cfg: Config, fetches: seq<Option<real>>, price: real) {
    && ((forall k :: 0 <= k < |fetches| ==> fetches[k].None?) ==> price == cfg.fallback)
    && forall k :: LastFetch(fetches, k) ==>
         || ScaledAndCapped(cfg, fetches[k].value, price)
         || (k < |fetches| - 1 && ScaledAndCapped(cfg, fetches[k].value, 0.0) && price == cfg.fallback)
  }

  /** A price other than zero survives every failed fetch. */
  ghost predicate NonZeroStays(cfg: Config, fetches: seq<Option<real>>, price: real) {
    forall k, p :: LastFetch(fetches, k) && ScaledAndCapped(cfg, fetches[k].value, p) && p != 0.0 ==> price == p
  }

  /** Scaling and capping determine the price. */
  lemma UpdateScales(cfg: Config, current: real, fetched: real, p: real)
    ensures ScaledAndCapped(cfg, fetched, p) <==> p == UpdatedPrice(cfg, current, Some(fetched))
  {
  }

  lemma FetchWorked(cfg: Config, fetches: seq<Option<real>>, fetched: real, price: real)
    ensures var after := UpdatedPrice(cfg, price, Some(fetched));
      PriceIs(cfg, fetches + [Some(fetched)], after) && NonZeroStays(cfg, fetches + [Some(fetched)], after)
  {
    var n, more := |fetches|, fetches + [Some(fetched)];
    assert more[n] == Some(fetched);
    forall k | LastFetch(more, k)
      ensures k == n
    {
      assert n <= k;
    }
    forall p
      ensures ScaledAndCapped(cfg, fetched, p) <==> p == UpdatedPrice(cfg, price, Some(fetched))
    {
      UpdateScales(cfg, price, fetched, p);
    }
  }

  lemma FetchFailed(cfg: Config, fetches: seq<Option<real>>, price: real)
    requires PriceIs(cfg, fetches, price) && NonZeroStays(cfg, fetches, price)
    ensures var after := UpdatedPrice(cfg, price, None);
      PriceIs(cfg, fetches + [None], after) && NonZeroStays(cfg, fetches + [None], after)
  {
    var n, more, after := |fetches|, fetches + [None], UpdatedPrice(cfg, price, None);
    assert forall k :: 0 <= k < n ==> more[k] == fetches[k];
    forall k | LastFetch(more, k)
      ensures k < n && LastFetch(fetches, k)
    {
      assert forall j :: k < j < n ==> more[j] == fetches[j];
    }
    if forall k :: 0 <= k < |more| ==> more[k].None? {
      assert forall k :: 0 <= k < n ==> fetches[k] == more[k];
    }
  }

  lemma OneMoreFetch(cfg: Config, fetches: seq<Option<real>>, raw: Option<real>, price: real)
    requires PriceIs(cfg, fetches, price) && NonZeroStays(cfg, fetches, price)
    ensures PriceIs(cfg, fetches + [raw], UpdatedPrice(cfg, price, raw))
    ensures NonZeroStays(cfg, fetches + [raw], UpdatedPrice(cfg, price, raw))
  {
    match raw
    case None => FetchFailed(cfg, fetches, price);
    case Some(fetched) => FetchWorked(cfg, fetches, fetched, price);
  }

  /** A step changes the price only by what it fetches. */
  lemma StepPrice(cfg: Config, s: Sys, step: Step)
    requires Next(cfg, s, step).Some?
    ensures |Fetched(step)| <= 1
    ensures Next(cfg, s, step).value.svc.gasPrice ==
      if Fetched(step) == [] then s.svc.gasPrice else UpdatedPrice(cfg, s.svc.gasPrice, Fetched(step)[0])
  {
  }

  ghost predicate PriceTrue(cfg: Config, fetches: seq<Option<real>>, price: real) {
    PriceIs(cfg, fetches, price) && NonZeroStays(cfg, fetches, price)
  }

  lemma BootPrice(cfg: Config, raw: Option<real>, count: int, pool: seq<TxHash>, now: int)
    ensures PriceTrue(cfg, [raw], Boot(cfg, raw, count, pool, now).svc.gasPrice)
  {
    WatchPoolContents(Service(count, UpdatedPrice(cfg, cfg.fallback, raw), {}, map[]), pool, now, cfg.timeoutMs);
    OneMoreFetch(cfg, [], raw, cfg.fallback);
    assert [] + [raw] == [raw];
  }

  lemma StepKeepsPrice(cfg: Config, s: Sys, step: Step, fetches: seq<Option<real>>)
    requires Next(cfg, s, step).Some? && PriceTrue(cfg, fetches, s.svc.gasPrice)
    ensures PriceTrue(cfg, fetches + Fetched(step), Next(cfg, s, step).value.svc.gasPrice)
  {
    StepPrice(cfg, s, step);
    if Fetched(step) == [] {
      assert fetches + Fetched(step) == fetches;
    } else {
      OneMoreFetch(cfg, fetches, Fetched(step)[0], s.svc.gasPrice);
      assert fetches + Fetched(step) == fetches + [Fetched(step)[0]];
    }
  }

  lemma {:induction false} RunKeepsPrice(cfg: Config, s0: Sys, first: Option<real>, steps: seq<Step>)
    requires PriceTrue(cfg, [first], s0.svc.gasPrice) && Exec(cfg, s0, steps).Some?
    ensures PriceTrue(cfg, [first] + Fetches(steps), Exec(cfg, s0, steps).value.svc.gasPrice)
  {
    if steps == [] {
      assert [first] + Fetches(steps) == [first];
    } else {
      var front, last := steps[..|steps| - 1], steps[|steps| - 1];
      RunKeepsPrice(cfg, s0, first, front);
      StepKeepsPrice(cfg, Exec(cfg, s0, front).value, last, [first] + Fetches(front));
      assert [first] + Fetches(steps) == [first] + Fetches(front) + Fetched(last);
    }
  }

  /** In every run, whatever interleaves, the gas price is the last one that start-up, the timer, a
      rejected submission or a rejected dead letter has fetched, scaled and capped; failed fetches leave
      it alone unless it is zero, and without any success it is the fallback. */
  lemma GasPriceExactly(cfg: Config, raw: Option<real>, count: int, pool: seq<TxHash>, now: int, steps: seq<Step>)
    requires Exec(cfg, Boot(cfg, raw, count, pool, now), steps).Some?
    ensures var price := Exec(cfg, Boot(cfg, raw, count, pool, now), steps).value.svc.gasPrice;
      && PriceIs(cfg, [raw] + Fetches(steps), price)
      && NonZeroStays(cfg, [raw] + Fetches(steps), price)
  {
    BootPrice(cfg, raw, count, pool, now);
    RunKeepsPrice(cfg, Boot(cfg, raw, count, pool, now), raw, steps);
  }
}
