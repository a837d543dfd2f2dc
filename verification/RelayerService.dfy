/** The relayer's `TransactionService`: the fields it updates in place and the pieces of its
    methods that run between two awaits. `Service` is the value of the fields; the functions on
    it are the specification of the class below and the building blocks of `RelayerSystem`. */
module RelayerService {
  import opened Common
  import opened GasPricing

  /** What a transaction carries: a submitted request, or the empty self-transfer of a dead letter. */
  datatype Payload = Request(data: nat) | SelfTransfer

  /** An ideal hash: injective in nonce, broadcast price and payload. */
  datatype TxHash = TxHash(nonce: int, price: int, payload: Payload)

  datatype Reason = GasTooLow | Expired

  /** How a cache entry came to be. This is history: the source does not store it. */
  datatype Origin =
    | Submitted
    | Pooled
    | Replacement(parent: Cached, reason: Reason)

  /** `TxCachedData`, with its history. */
  datatype Cached = Cached(nonce: int, gasPrice: real, seenAt: int, expireIn: int, origin: Origin)

  datatype Service = Service(
    nonce: int,
    gasPrice: real,
    watched: set<TxHash>,
    cache: map<TxHash, Cached>)

  /** The summaries of one check: the cached data is undefined when the cache lacks the hash. */
  type Items = map<TxHash, Option<Cached>>

  function Watch(s: Service, h: TxHash, c: Cached): Service {
    s.(watched := s.watched + {h}, cache := s.cache[h := c])
  }

  function Unwatch(s: Service, h: TxHash): Service {
    s.(watched := s.watched - {h}, cache := s.cache - {h})
  }

  function Elements(hs: seq<TxHash>): set<TxHash> {
    set h | h in hs
  }

  function UnwatchAll(s: Service, hs: set<TxHash>): Service {
    s.(watched := s.watched - hs, cache := s.cache - hs)
  }

  function PoolEntry(h: TxHash, now: int, timeout: int): Cached {
    Cached(h.nonce, h.price as real, now, timeout, Pooled)
  }

  /** The effect of watching the node's pending transactions one after the other. */
  function WatchPool(s: Service, pool: seq<TxHash>, now: int, timeout: int): Service {
    if pool == [] then s
    else
      var last := pool[|pool| - 1];
      Watch(WatchPool(s, pool[..|pool| - 1], now, timeout), last, PoolEntry(last, now, timeout))
  }

  /** The fields after `onModuleInit`. */
  function Started(cfg: Config, raw: Option<real>, count: int, pool: seq<TxHash>, now: int): Service {
    WatchPool(Service(count, UpdatedPrice(cfg, cfg.fallback, raw), {}, map[]), pool, now, cfg.timeoutMs)
  }

  function Snapshot(s: Service): Items {
    map h | h in s.watched :: if h in s.cache then Some(s.cache[h]) else None
  }

  predicate HasGasTooLow(item: Option<Cached>, mined: bool, current: real) {
    !mined && item.Some? && item.value.gasPrice < current
  }

  predicate IsExpired(item: Option<Cached>, mined: bool, now: int) {
    !mined && (item.Some? && item.value.seenAt != 0 ==> now - item.value.seenAt > item.value.expireIn)
  }

  function LowItems(items: Items, mined: set<TxHash>, current: real): set<TxHash> {
    set h | h in items && HasGasTooLow(items[h], h in mined, current)
  }

  function ExpiredItems(items: Items, mined: set<TxHash>, now: int): set<TxHash> {
    set h | h in items && IsExpired(items[h], h in mined, now)
  }

  function ReplacementHash(c: Cached, price: real): TxHash {
    TxHash(c.nonce, ToWei(price), SelfTransfer)
  }

  function ReplacementEntry(c: Cached, price: real, reason: Reason, now: int): Cached {
    Cached(c.nonce, price, now, c.expireIn * 2, Replacement(c, reason))
  }

  /** The end of a dead letter that the node accepted: the old hash leaves, the new one enters. */
  function Replace(s: Service, h: TxHash, c: Cached, price: real, reason: Reason, now: int): Service {
    Watch(Unwatch(s, h), ReplacementHash(c, price), ReplacementEntry(c, price, reason, now))
  }

  class TransactionService {
    const cfg: Config
    var watchedTransactions: set<TxHash>
    var transactions: map<TxHash, Cached>
    var gasPrice: real
    var nonce: int

    ghost function View(): Service
      reads this
    {
      Service(nonce, gasPrice, watchedTransactions, transactions)
    }

    constructor (cfg: Config)
      ensures this.cfg == cfg
      ensures watchedTransactions == {} && transactions == map[] && gasPrice == cfg.fallback
    {
      this.cfg := cfg;
      watchedTransactions := {};
      transactions := map[];
      gasPrice := cfg.fallback;
      nonce := 0;
    }

    /** The synchronous end of `onModuleInit`: `pending` is the node's pool for this wallet. */
    method WatchPending(pending: seq<TxHash>, now: int)
      modifies this
      ensures View() == WatchPool(old(View()), pending, now, cfg.timeoutMs)
    {
      for i := 0 to |pending|
        invariant View() == WatchPool(old(View()), pending[..i], now, cfg.timeoutMs)
      {
        assert pending[..i + 1][..i] == pending[..i];
        WatchTransaction(pending[i], PoolEntry(pending[i], now, cfg.timeoutMs));
      }
      assert pending[..|pending|] == pending;
    }

    method WatchTransaction(hash: TxHash, cached: Cached)
      modifies this
      ensures forall h :: h in watchedTransactions <==> h in old(watchedTransactions) || h == hash
      ensures transactions == old(transactions)[hash := cached]
      ensures View() == Watch(old(View()), hash, cached)
    {
      watchedTransactions := watchedTransactions + {hash};
      transactions := transactions[hash := cached];
    }

    method UnwatchTransaction(hash: TxHash)
      modifies this
      ensures forall h :: h in watchedTransactions <==> h in old(watchedTransactions) && h != hash
      ensures forall h :: h in transactions <==> h in old(transactions) && h != hash
      ensures forall h :: h in transactions ==> transactions[h] == old(transactions)[h]
      ensures View() == Unwatch(old(View()), hash)
    {
      watchedTransactions := watchedTransactions - {hash};
      transactions := transactions - {hash};
    }

    /** Inside the lock, after the node has accepted: hand out the nonce and step it. */
    method TakeNonce() returns (used: int)
      modifies this`nonce
      ensures used == old(nonce) && View() == old(View()).(nonce := used + 1)
    {
      used := nonce;
      nonce := nonce + 1;
    }

    /** The end of `updateNonce`. */
    method SetNonce(count: int)
      modifies this`nonce
      ensures View() == old(View()).(nonce := count)
    {
      nonce := count;
    }

    /** A price fetched from the node is scaled and capped; a failed fetch keeps the price, unless there
        is none yet. Once at or below the cap, the price never leaves it. */
    method UpdateGasPrice(raw: Option<real>)
      modifies this`gasPrice
      ensures cfg.fallback <= cfg.maxGasPrice && old(gasPrice) <= cfg.maxGasPrice ==> gasPrice <= cfg.maxGasPrice
      ensures raw.Some? ==>
        && gasPrice <= cfg.maxGasPrice && gasPrice <= raw.value * cfg.multiplier
        && (gasPrice < cfg.maxGasPrice ==> gasPrice == raw.value * cfg.multiplier)
      ensures raw.None? ==> gasPrice == if old(gasPrice) == 0.0 then cfg.fallback else old(gasPrice)
      ensures gasPrice == UpdatedPrice(cfg, old(gasPrice), raw)
    {
      match raw
      case Some(minimum) =>
        var price := MinReal(minimum * cfg.multiplier, cfg.maxGasPrice);
        gasPrice := price;
      case None =>
        if gasPrice == 0.0 {
          gasPrice := cfg.fallback;
        }
    }

    /** The synchronous part of `getTxSummaries`: one summary for every watched hash. None lacks its
        cached data exactly when the cache covers the watched set. */
    method TakeSnapshot() returns (items: Items)
      ensures items.Keys == watchedTransactions
      ensures forall h :: h in items && h in transactions ==> items[h] == Some(transactions[h])
      ensures (forall h :: h in items ==> items[h].Some?) <==> watchedTransactions <= transactions.Keys
      ensures items == Snapshot(View())
    {
      items := map h | h in watchedTransactions ::
        if h in transactions then Some(transactions[h]) else None;
    }

    /** `onModuleInit` on a new service, given what the node answers. */
    method Start(raw: Option<real>, count: int, pending: seq<TxHash>, now: int)
      requires watchedTransactions == {} && transactions == map[] && gasPrice == cfg.fallback
      modifies this
      ensures View() == Started(cfg, raw, count, pending, now)
      ensures forall h :: (h in watchedTransactions <==> h in pending) && (h in transactions <==> h in pending)
      ensures forall h :: h in transactions ==>
        transactions[h] == Cached(h.nonce, h.price as real, now, cfg.timeoutMs, Pooled)
      ensures nonce == count
    {
      UpdateGasPrice(raw);
      SetNonce(count);
      ghost var blank := View();
      WatchPending(pending, now);
      WatchPoolContents(blank, pending, now, cfg.timeoutMs);
    }

    /** The end of `deadLetter` once the node has accepted the replacement. */
    method DeadLetterAccepted(hash: TxHash, cached: Cached, price: real, reason: Reason, now: int)
      modifies this
      ensures var r := TxHash(cached.nonce, ToWei(price), SelfTransfer);
        && (forall h :: h in watchedTransactions <==> (h in old(watchedTransactions) && h != hash) || h == r)
        && r in transactions && transactions[r].nonce == cached.nonce && transactions[r].gasPrice == price
        && transactions[r].seenAt == now && transactions[r].expireIn == cached.expireIn + cached.expireIn
        && (forall h :: h in transactions && h != r ==>
              h in old(transactions) && h != hash && transactions[h] == old(transactions)[h])
      ensures View() == Replace(old(View()), hash, cached, price, reason, now)
    {
      UnwatchTransaction(hash);
      WatchTransaction(ReplacementHash(cached, price), ReplacementEntry(cached, price, reason, now));
    }

    /** `finalizeTransaction` for each completed item, in any order: exactly those leave. */
    method FinalizeTransactions(receipts: seq<TxHash>)
      modifies this
      ensures forall h :: h in watchedTransactions <==> h in old(watchedTransactions) && h !in receipts
      ensures forall h :: h in transactions <==> h in old(transactions) && h !in receipts
      ensures forall h :: h in transactions ==> transactions[h] == old(transactions)[h]
      ensures nonce == old(nonce) && gasPrice == old(gasPrice)
      ensures View() == UnwatchAll(old(View()), Elements(receipts))
    {
      for i := 0 to |receipts|
        invariant View() == UnwatchAll(old(View()), Elements(receipts[..i]))
      {
        UnwatchTransaction(receipts[i]);
        assert Elements(receipts[..i + 1]) == Elements(receipts[..i]) + {receipts[i]};
      }
      assert receipts[..|receipts|] == receipts;
    }
  }

  /** After watching a pool, exactly the pool and what was there before is watched, and every
      pool hash has its own nonce cached. */
  lemma {:induction false} WatchPoolContents(s: Service, pool: seq<TxHash>, now: int, timeout: int)
    ensures var r := WatchPool(s, pool, now, timeout);
      && r.nonce == s.nonce && r.gasPrice == s.gasPrice
      && r.watched == s.watched + Elements(pool)
      && r.cache.Keys == s.cache.Keys + Elements(pool)
      && (forall h :: h in r.cache ==>
            r.cache[h] == if h in pool then PoolEntry(h, now, timeout) else s.cache[h])
  {
    if pool == [] {
    } else {
      var front, last := pool[..|pool| - 1], pool[|pool| - 1];
      WatchPoolContents(s, front, now, timeout);
      assert pool == front + [last];
      assert Elements(pool) == Elements(front) + {last};
    }
  }
}
