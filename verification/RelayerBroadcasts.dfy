/** Under how many nonces one submission reaches the network, over every run: once per rejected send that
    was broadcast nevertheless, and once more when it is acknowledged. */
module RelayerBroadcasts {
  import opened Common
  import opened GasPricing
  import opened RelayerService
  import opened RelayerSystem
  import opened RelayerNonces

  /** The broadcasts of one submission, oldest first. */
  function BroadcastsOf(bs: seq<Broadcast>, id: nat): seq<Broadcast> {
    if bs == [] then []
    else
      var last := bs[|bs| - 1];
      BroadcastsOf(bs[..|bs| - 1], id) + if last.submitter == id then [last] else []
  }

  /** The step broadcasts the submission. */
  predicate Broadcasts(step: Step, id: nat) {
    && step.Submit? && step.id == id
    && (step.submitAct.SendOk? || (step.submitAct.SendFail? && step.submitAct.leaked))
  }

  lemma BroadcastsAppend(bs: seq<Broadcast>, b: Broadcast, id: nat)
    ensures BroadcastsOf(bs + [b], id) == BroadcastsOf(bs, id) + if b.submitter == id then [b] else []
  {
    assert (bs + [b])[..|bs|] == bs;
  }

  /** What a step broadcasts for a submission: under the nonce the counter shows. */
  lemma StepBroadcasts(cfg: Config, s: Sys, step: Step)
    requires Inv(s) && Next(cfg, s, step).Some?
    ensures var t := Next(cfg, s, step).value;
      if step.Submit? && Broadcasts(step, step.id)
      then step.id in s.submitters && s.submitters[step.id].phase.Sending?
           && t.broadcasts == s.broadcasts + [Broadcast(step.id, s.svc.nonce, step.submitAct.SendOk?)]
      else t.broadcasts == s.broadcasts
  {
    if step.Submit? && Broadcasts(step, step.id) {
      assert SubmitterOk(s, s.submitters[step.id]);
    }
  }

  lemma StepBroadcastsOf(cfg: Config, s: Sys, step: Step, id: nat)
    requires Inv(s) && Next(cfg, s, step).Some?
    ensures var before, after := BroadcastsOf(s.broadcasts, id), BroadcastsOf(Next(cfg, s, step).value.broadcasts, id);
      after == if Broadcasts(step, id) then before + [Broadcast(id, s.svc.nonce, step.submitAct.SendOk?)] else before
  {
    StepBroadcasts(cfg, s, step);
    if step.Submit? && Broadcasts(step, step.id) {
      BroadcastsAppend(s.broadcasts, Broadcast(step.id, s.svc.nonce, step.submitAct.SendOk?), id);
    }
  }

  // ----- At most one acknowledged broadcast, and it is the last

  ghost predicate Ended(s: Sys, id: nat) {
    id in s.submitters && (s.submitters[id].phase.Sent? || s.submitters[id].phase.Finished?)
  }

  /** Only the last broadcast can be acknowledged, and then the submission has ended. */
  ghost predicate LastAcknowledged(s: Sys, id: nat) {
    var bs := BroadcastsOf(s.broadcasts, id);
    && (forall i :: 0 <= i < |bs| - 1 ==> !bs[i].acknowledged)
    && (bs != [] && bs[|bs| - 1].acknowledged ==> Ended(s, id))
  }

  lemma EndedStays(cfg: Config, s: Sys, step: Step, id: nat)
    requires Next(cfg, s, step).Some? && Ended(s, id)
    ensures Ended(Next(cfg, s, step).value, id) && !Broadcasts(step, id)
  {
  }

  lemma SendEnds(cfg: Config, s: Sys, step: Step, id: nat)
    requires Next(cfg, s, step).Some? && Broadcasts(step, id) && step.submitAct.SendOk?
    ensures Ended(Next(cfg, s, step).value, id)
  {
  }

  lemma StepKeepsLast(cfg: Config, s: Sys, step: Step, id: nat)
    requires Inv(s) && LastAcknowledged(s, id) && Next(cfg, s, step).Some?
    ensures LastAcknowledged(Next(cfg, s, step).value, id)
  {
    StepBroadcastsOf(cfg, s, step, id);
    if Ended(s, id) {
      EndedStays(cfg, s, step, id);
    } else if Broadcasts(step, id) && step.submitAct.SendOk? {
      SendEnds(cfg, s, step, id);
    }
  }

  /** Every broadcast of a submission but the last belongs to a send that was rejected, so a submission
      none of whose rejected sends leaked reaches the network at most once. */
  lemma {:induction false} AcknowledgedIsLast(cfg: Config, raw: Option<real>, count: int, pool: seq<TxHash>,
                                             now: int, steps: seq<Step>, id: nat)
    requires Exec(cfg, Boot(cfg, raw, count, pool, now), steps).Some?
    ensures LastAcknowledged(Exec(cfg, Boot(cfg, raw, count, pool, now), steps).value, id)
  {
    var s0 := Boot(cfg, raw, count, pool, now);
    if steps == [] {
    } else {
      var front := steps[..|steps| - 1];
      AcknowledgedIsLast(cfg, raw, count, pool, now, front, id);
      BootInv(cfg, raw, count, pool, now);
      RunKeepsInv(cfg, s0, front);
      StepKeepsLast(cfg, Exec(cfg, s0, front).value, steps[|steps| - 1], id);
    }
  }

  // ----- Exactly when a submission is broadcast under two nonces

  ghost predicate OneNonce(s: Sys, id: nat) {
    var bs := BroadcastsOf(s.broadcasts, id);
    forall i, j :: 0 <= i < |bs| && 0 <= j < |bs| ==> bs[i].nonce == bs[j].nonce
  }

  /** A submission that has leaked is broadcast again after the counter has moved away from the nonce of
      the leak, by a reset or by the sends of others. */
  ghost predicate MovedOn(s: Sys, step: Step, id: nat) {
    Broadcasts(step, id) && exists i :: 0 <= i < |BroadcastsOf(s.broadcasts, id)|
                                        && BroadcastsOf(s.broadcasts, id)[i].nonce != s.svc.nonce
  }

  lemma StepOneNonceExactly(cfg: Config, s: Sys, step: Step, id: nat)
    requires Inv(s) && OneNonce(s, id) && Next(cfg, s, step).Some?
    ensures OneNonce(Next(cfg, s, step).value, id) <==> !MovedOn(s, step, id)
  {
    StepBroadcastsOf(cfg, s, step, id);
    var before, after := BroadcastsOf(s.broadcasts, id), BroadcastsOf(Next(cfg, s, step).value.broadcasts, id);
    if Broadcasts(step, id) {
      assert after[|before|].nonce == s.svc.nonce;
      assert forall i :: 0 <= i < |before| ==> after[i] == before[i];
    }
  }

  ghost predicate AlwaysOneNonce(cfg: Config, s: Sys, steps: seq<Step>, id: nat) {
    && (Exec(cfg, s, steps).Some? ==> OneNonce(Exec(cfg, s, steps).value, id))
    && (steps == [] || AlwaysOneNonce(cfg, s, steps[..|steps| - 1], id))
  }

  ghost predicate NeverMovedOn(cfg: Config, s: Sys, steps: seq<Step>, id: nat) {
    steps == [] ||
    var front := steps[..|steps| - 1];
    && NeverMovedOn(cfg, s, front, id)
    && (Exec(cfg, s, front).Some? ==> !MovedOn(Exec(cfg, s, front).value, steps[|steps| - 1], id))
  }

  /** Over every run, a submission reaches the network under one nonce only, so that the chain can include
      it once at most, exactly when it is never sent again while the counter shows another nonce than
      that of an earlier send of it that leaked. */
  lemma {:induction false} OneNonceExactly(cfg: Config, raw: Option<real>, count: int, pool: seq<TxHash>,
                                          now: int, steps: seq<Step>, id: nat)
    requires Exec(cfg, Boot(cfg, raw, count, pool, now), steps).Some?
    ensures var s0 := Boot(cfg, raw, count, pool, now);
      AlwaysOneNonce(cfg, s0, steps, id) <==> NeverMovedOn(cfg, s0, steps, id)
  {
    var s0 := Boot(cfg, raw, count, pool, now);
    if steps == [] {
    } else {
      var front := steps[..|steps| - 1];
      OneNonceExactly(cfg, raw, count, pool, now, front, id);
      BootInv(cfg, raw, count, pool, now);
      RunKeepsInv(cfg, s0, front);
      if AlwaysOneNonce(cfg, s0, front, id) {
        StepOneNonceExactly(cfg, Exec(cfg, s0, front).value, steps[|steps| - 1], id);
      }
    }
  }
}
