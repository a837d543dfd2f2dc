/** Gas-price arithmetic of the relayer: the capped update, the replacement price and the
    rounding applied when a price is broadcast. Prices are exact decimals in the source
    (BigNumber), so they are `real` here; only `toFixed(0)` rounds. */
module GasPricing {
  import opened Common

  datatype Config = Config(
    maxGasPrice: real,
    fallback: real,
    multiplier: real,
    timeoutMs: int)

  const BUMP: real := 1.4

  function MinReal(a: real, b: real): real { if a <= b then a else b }

  function MaxReal(a: real, b: real): real { if a >= b then a else b }

  /** The price after `updateGasPrice`; `raw` is None when the fetch throws. */
  function UpdatedPrice(cfg: Config, current: real, raw: Option<real>): real {
    match raw
    case Some(minimum) => MinReal(minimum * cfg.multiplier, cfg.maxGasPrice)
    case None => if current == 0.0 then cfg.fallback else current
  }

  /** The price of the transaction that replaces one cached at `cached`. */
  function ReplacementPrice(cached: real, current: real): real {
    MaxReal(cached * BUMP, current)
  }

  /** BigNumber's `toFixed(0)`: half away from zero. */
  function ToWei(x: real): int {
    if x >= 0.0 then (x + 0.5).Floor else -((0.5 - x).Floor)
  }

  /** A price after k bumps of 40%, that is 1.4^k times the price. */
  function Grown(price: real, k: nat): real {
    if k == 0 then price else Grown(price, k - 1) * BUMP
  }

  function PowerOfTwo(k: nat): nat {
    if k == 0 then 1 else 2 * PowerOfTwo(k - 1)
  }

  /** The current price never exceeds the cap once it starts at or below it. */
  lemma UpdateStaysCapped(cfg: Config, current: real, raw: Option<real>)
    requires cfg.fallback <= cfg.maxGasPrice && current <= cfg.maxGasPrice
    ensures UpdatedPrice(cfg, current, raw) <= cfg.maxGasPrice
  {
  }

  /** Growth is linear in the price: bumping k times multiplies by a factor that depends on k only. */
  lemma {:induction false} GrownIsFactor(price: real, k: nat)
    ensures Grown(price, k) == Grown(1.0, k) * price
  {
    if k == 0 {
    } else {
      GrownIsFactor(price, k - 1);
      assert Grown(1.0, k - 1) * price * BUMP == Grown(1.0, k - 1) * BUMP * price;
    }
  }

  lemma {:induction false} GrownAtLeast(price: real, k: nat)
    requires price >= 0.0
    ensures Grown(price, k) >= price + (k as real) * (0.4 * price)
  {
    if k == 0 {
    } else {
      GrownAtLeast(price, k - 1);
      assert (k as real) * (0.4 * price) == ((k - 1) as real) * (0.4 * price) + 0.4 * price;
      assert ((k - 1) as real) * (0.4 * price) >= 0.0;
    }
  }

  lemma {:induction false} GrownMonotone(price: real, j: nat, k: nat)
    requires price >= 0.0 && j <= k
    ensures 0.0 <= Grown(price, j) <= Grown(price, k)
    decreases k
  {
    if j < k {
      GrownMonotone(price, j, k - 1);
    } else if k > 0 {
      GrownMonotone(price, j - 1, k - 1);
    }
  }

  lemma {:induction false} PowerMonotone(j: nat, k: nat)
    requires j <= k
    ensures 1 <= PowerOfTwo(j) <= PowerOfTwo(k)
    decreases k
  {
    if j < k {
      PowerMonotone(j, k - 1);
    } else if k > 0 {
      PowerMonotone(j - 1, k - 1);
    }
  }

  /** A node accepts a replacement only when its broadcast price is at least 10% above the one
      it replaces. */
  predicate TenPercentAbove(oldWei: int, newWei: int) {
    10 * newWei >= 11 * oldWei
  }

  /** The price at which a bid starts to round to 10% above a broadcast price. */
  function MinimumBid(oldWei: int): real {
    ((11 * oldWei + 9) / 10) as real - 0.5
  }

  /** A bid that rounds to at least 10% above; halves round away from zero, so a negative one rounds down. */
  predicate BidSuffices(bid: real, oldWei: int) {
    bid > MinimumBid(oldWei) || (bid == MinimumBid(oldWei) && bid >= 0.0)
  }

  lemma SufficesExactly(bid: real, oldWei: int)
    ensures TenPercentAbove(oldWei, ToWei(bid)) <==> BidSuffices(bid, oldWei)
  {
    var least := (11 * oldWei + 9) / 10;
    assert TenPercentAbove(oldWei, ToWei(bid)) <==> ToWei(bid) >= least;
  }

  /** The higher of two bids suffices exactly when one of them does. */
  lemma OneSuffices(cached: real, current: real, oldWei: int)
    ensures TenPercentAbove(oldWei, ToWei(ReplacementPrice(cached, current)))
       <==> BidSuffices(cached * BUMP, oldWei) || BidSuffices(current, oldWei)
  {
    SufficesExactly(ReplacementPrice(cached, current), oldWei);
  }

  lemma ToWeiIs(x: real, w: int)
    requires x >= 0.0 && w as real - 0.5 <= x < w as real + 0.5
    ensures ToWei(x) == w
  {
  }

  /** Rounding can spoil the 40% bump only for prices below 25/14 wei: a price cached at `p` is
      replaced at least 10% above its own broadcast price exactly when the replacement price
      gets past the next rounding boundary. */
  lemma RoundedBump(p: real, current: real)
    requires p >= 0.0
    ensures TenPercentAbove(ToWei(p), ToWei(ReplacementPrice(p, current)))
       <==> !(0.5 <= p < 1.5 && ReplacementPrice(p, current) < 1.5)
            && !(1.5 <= p < 2.5 && ReplacementPrice(p, current) < 2.5)
  {
  }

  /** From 4 wei upwards (in fact from 25/14 wei) the bump always survives rounding. */
  lemma RoundedBumpFromTwoWei(p: real, current: real)
    requires 14.0 * p >= 25.0
    ensures TenPercentAbove(ToWei(p), ToWei(ReplacementPrice(p, current)))
  {
  }
}
