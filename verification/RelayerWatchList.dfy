/** What enters and leaves the watched transactions: the exact condition for every step, and the ends of
    a transaction's life under watch. */
module RelayerWatchList {
  import opened Common
  import opened GasPricing
  import opened RelayerService
  import opened RelayerSystem
  import opened RelayerNonces

  /** What the node has accepted in place of h, as an empty transfer at the price of the attempt. */
  ghost predicate IsReplacement(s: Sys, p: nat, h: TxHash, r: TxHash) {
    && p in s.passes && HasTask(s.passes[p], h) && s.passes[p].tasks[h].attempt.InFlight?
    && r.nonce == h.nonce && r.payload == SelfTransfer
    && r.price == ToWei(s.passes[p].tasks[h].attempt.price)
  }

  /** A transaction comes under watch when its submission has been acknowledged, or as a replacement. */
  ghost predicate Enters(s: Sys, step: Step, h: TxHash) {
    match step
    case Submit(id, WatchSent) => id in s.submitters && s.submitters[id].phase.Sent? && s.submitters[id].phase.hash == h
    case Check(p, ReplaceOk(g)) => IsReplacement(s, p, g, h)
    case _ => false
  }

  predicate FoundMined(pass: Pass, h: TxHash) {
    pass.Confirming? && h in pass.mined
  }

  /** It leaves when a pass that found it mined has its receipt, when the node knows its nonce as used,
      or when it is replaced, unless by a transaction just like it. */
  ghost predicate Leaves(s: Sys, step: Step, h: TxHash) {
    match step
    case Check(p, Confirm(receipts)) => h in receipts && p in s.passes && FoundMined(s.passes[p], h)
    case Check(p, ReplaceFail(g, error)) => g == h && error.NonceTooLow?
    case Check(p, ReplaceOk(g)) => g == h && !IsReplacement(s, p, h, h)
    case _ => false
  }

  /** The watched set and the cached data after a step, hash by hash. */
  ghost predicate ChangesExactly(s: Sys, step: Step, t: Sys) {
    forall h ::
      && (h in t.svc.watched <==> Enters(s, step, h) || (h in s.svc.watched && !Leaves(s, step, h)))
      && (h in t.svc.cache <==> h in t.svc.watched)
      && (h in t.svc.cache && !Enters(s, step, h) ==> h in s.svc.cache && t.svc.cache[h] == s.svc.cache[h])
  }

  lemma SubmitChanges(cfg: Config, s: Sys, id: nat, act: SubmitAct)
    requires Inv(s) && NextSubmit(cfg, s, id, act).Some?
    ensures ChangesExactly(s, Submit(id, act), NextSubmit(cfg, s, id, act).value)
  {
  }

  lemma ReplacementIs(s: Sys, p: nat, h: TxHash, r: TxHash)
    requires Inv(s) && p in s.passes && HasTask(s.passes[p], h) && s.passes[p].tasks[h].attempt.InFlight?
    ensures IsReplacement(s, p, h, r) <==>
      r == ReplacementHash(s.passes[p].items[h].value, s.passes[p].tasks[h].attempt.price)
  {
  }

  lemma ReplaceChanges(cfg: Config, s: Sys, p: nat, h: TxHash)
    requires Inv(s) && p in s.passes && HasTask(s.passes[p], h) && NextTask(cfg, s, p, ReplaceOk(h), h).Some?
    ensures ChangesExactly(s, Check(p, ReplaceOk(h)), NextTask(cfg, s, p, ReplaceOk(h), h).value)
  {
    forall r
      ensures IsReplacement(s, p, h, r) <==>
        r == ReplacementHash(s.passes[p].items[h].value, s.passes[p].tasks[h].attempt.price)
    {
      ReplacementIs(s, p, h, r);
    }
  }

  lemma OtherTaskChanges(cfg: Config, s: Sys, p: nat, act: CheckAct, h: TxHash)
    requires (act.ReplaceFail? || act.Repriced?) && act.hash == h
    requires Inv(s) && p in s.passes && HasTask(s.passes[p], h) && NextTask(cfg, s, p, act, h).Some?
    ensures ChangesExactly(s, Check(p, act), NextTask(cfg, s, p, act, h).value)
  {
  }

  lemma CheckChanges(cfg: Config, s: Sys, p: nat, act: CheckAct)
    requires Inv(s) && NextCheck(cfg, s, p, act).Some?
    ensures ChangesExactly(s, Check(p, act), NextCheck(cfg, s, p, act).value)
  {
    if act.ReplaceOk? {
      ReplaceChanges(cfg, s, p, act.hash);
    } else if IsTaskAct(act) {
      OtherTaskChanges(cfg, s, p, act, act.hash);
    }
  }

  /** In every run, each step changes the watched set and the cache exactly as `Enters` and `Leaves` say:
      nothing is dropped that was not mined, replaced or reported as used, and nothing stays that was. */
  lemma WatchListExactly(cfg: Config, raw: Option<real>, count: int, pool: seq<TxHash>, now: int,
                         steps: seq<Step>, step: Step)
    requires Exec(cfg, Boot(cfg, raw, count, pool, now), steps).Some?
    requires Next(cfg, Exec(cfg, Boot(cfg, raw, count, pool, now), steps).value, step).Some?
    ensures var s := Exec(cfg, Boot(cfg, raw, count, pool, now), steps).value;
      ChangesExactly(s, step, Next(cfg, s, step).value)
  {
    BootInv(cfg, raw, count, pool, now);
    RunKeepsInv(cfg, Boot(cfg, raw, count, pool, now), steps);
    var s := Exec(cfg, Boot(cfg, raw, count, pool, now), steps).value;
    match step
    case Submit(id, act) => SubmitChanges(cfg, s, id, act);
    case Check(p, act) => CheckChanges(cfg, s, p, act);
    case GasTick(_) =>
    case Clock(_) =>
  }

  /** After a pass has confirmed its receipts none of them is watched or cached, every other transaction
      is exactly as before, and so are the nonce and the gas price. */
  lemma ConfirmedLeave(cfg: Config, raw: Option<real>, count: int, pool: seq<TxHash>, now: int,
                       steps: seq<Step>, p: nat, receipts: set<TxHash>)
    requires Exec(cfg, Boot(cfg, raw, count, pool, now), steps).Some?
    requires Next(cfg, Exec(cfg, Boot(cfg, raw, count, pool, now), steps).value, Check(p, Confirm(receipts))).Some?
    ensures var s := Exec(cfg, Boot(cfg, raw, count, pool, now), steps).value;
      var t := Next(cfg, s, Check(p, Confirm(receipts))).value;
      && (forall h :: h in receipts ==> h !in t.svc.watched && h !in t.svc.cache && h.nonce in t.finalised)
      && (forall h :: h !in receipts ==>
            && (h in t.svc.watched <==> h in s.svc.watched) && (h in t.svc.cache <==> h in s.svc.cache)
            && (h in s.svc.cache ==> t.svc.cache[h] == s.svc.cache[h]))
      && t.svc.nonce == s.svc.nonce && t.svc.gasPrice == s.svc.gasPrice
  {
    BootInv(cfg, raw, count, pool, now);
    RunKeepsInv(cfg, Boot(cfg, raw, count, pool, now), steps);
    WatchListExactly(cfg, raw, count, pool, now, steps, Check(p, Confirm(receipts)));
  }
}
