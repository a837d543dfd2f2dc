/** The weekly limit of `InviteRewardService`: each instance handles one event at a time, counts the
    inviter's rewards of the week and, if below the limit, creates a row a little later. Between
    the count and the creation other instances do the same. */
module InviteLimit {
  import opened Common
  import opened RewardEntity

  const WEEKLY_INVITE_LIMIT := 20

  /** The most rewards of a week that the count lets one more pass. */
  const ROOM := WEEKLY_INVITE_LIMIT - 1

  /** `everFailed` is history: whether the row has ever been in state Failed. */
  datatype Reward = Reward(inviter: string, invitee: string, identifier: string, week: int,
                           state: RewardStatus, everFailed: bool)

  /** An instance that passed all checks in week `since` and has not saved the row yet. */
  datatype Phase = Idle | Cleared(inviter: string, invitee: string, identifier: string, since: int)

  datatype Sys = Sys(rewards: seq<Reward>, phases: seq<Phase>, week: int)

  datatype Step =
    | CheckConditions(instance: nat, inviter: string, invitee: string, identifier: string, othersHold: bool)
    | CreateReward(instance: nat, stamp: int)
    | Drop(instance: nat)
    | SetState(reward: nat, state: RewardStatus)
    | NextWeek

  predicate InWeek(r: Reward, inviter: string, week: int) {
    r.inviter == inviter && r.week == week
  }

  function CountInWeek(rs: seq<Reward>, inviter: string, week: int): nat {
    if rs == [] then 0
    else CountInWeek(rs[..|rs| - 1], inviter, week) + if InWeek(rs[|rs| - 1], inviter, week) then 1 else 0
  }

  /** The count of `inviterHasNotReachedWeeklyLimit`: Failed rewards do not count. */
  function CountNotFailed(rs: seq<Reward>, inviter: string, week: int): nat {
    if rs == [] then 0
    else
      var last := rs[|rs| - 1];
      CountNotFailed(rs[..|rs| - 1], inviter, week)
      + if InWeek(last, inviter, week) && last.state != Failed then 1 else 0
  }

  function CountEverFailed(rs: seq<Reward>, inviter: string, week: int): nat {
    if rs == [] then 0
    else
      var last := rs[|rs| - 1];
      CountEverFailed(rs[..|rs| - 1], inviter, week) + if InWeek(last, inviter, week) && last.everFailed then 1 else 0
  }

  /** The rewards of an inviter and week, as indices: all of them, those that count, those that ever failed. */
  ghost function RewardsInWeek(rs: seq<Reward>, inviter: string, week: int): set<int> {
    set i | 0 <= i < |rs| && rs[i].inviter == inviter && rs[i].week == week
  }

  ghost function CountedInWeek(rs: seq<Reward>, inviter: string, week: int): set<int> {
    set i | i in RewardsInWeek(rs, inviter, week) && rs[i].state != Failed
  }

  ghost function EverFailedInWeek(rs: seq<Reward>, inviter: string, week: int): set<int> {
    set i | i in RewardsInWeek(rs, inviter, week) && rs[i].everFailed
  }

  lemma WeekSetStep(rs: seq<Reward>, r: Reward, inviter: string, week: int)
    ensures RewardsInWeek(rs + [r], inviter, week)
         == RewardsInWeek(rs, inviter, week) + if InWeek(r, inviter, week) then {|rs|} else {}
  {
  }

  lemma CountedSetStep(rs: seq<Reward>, r: Reward, inviter: string, week: int)
    ensures CountedInWeek(rs + [r], inviter, week)
         == CountedInWeek(rs, inviter, week) + if InWeek(r, inviter, week) && r.state != Failed then {|rs|} else {}
  {
    WeekSetStep(rs, r, inviter, week);
  }

  lemma FailedSetStep(rs: seq<Reward>, r: Reward, inviter: string, week: int)
    ensures EverFailedInWeek(rs + [r], inviter, week)
         == EverFailedInWeek(rs, inviter, week) + if InWeek(r, inviter, week) && r.everFailed then {|rs|} else {}
  {
    WeekSetStep(rs, r, inviter, week);
  }

  /** The counts are the sizes of these sets. */
  lemma {:induction false} CountsAreSizes(rs: seq<Reward>, inviter: string, week: int)
    ensures CountInWeek(rs, inviter, week) == |RewardsInWeek(rs, inviter, week)|
    ensures CountNotFailed(rs, inviter, week) == |CountedInWeek(rs, inviter, week)|
    ensures CountEverFailed(rs, inviter, week) == |EverFailedInWeek(rs, inviter, week)|
  {
    if rs == [] {
    } else {
      var front, last := rs[..|rs| - 1], rs[|rs| - 1];
      CountsAreSizes(front, inviter, week);
      assert rs == front + [last];
      WeekSetStep(front, last, inviter, week);
      CountedSetStep(front, last, inviter, week);
      FailedSetStep(front, last, inviter, week);
    }
  }

  predicate ClearedBy(p: Phase, inviter: string, week: int) {
    p.Cleared? && p.inviter == inviter && p.since <= week
  }

  /** The instances that may still create a reward for the inviter in the given week. */
  function CountCleared(ps: seq<Phase>, inviter: string, week: int): nat {
    if ps == [] then 0
    else CountCleared(ps[..|ps| - 1], inviter, week) + if ClearedBy(ps[|ps| - 1], inviter, week) then 1 else 0
  }

  /** Both columns are unique in the database. */
  predicate Duplicate(rs: seq<Reward>, invitee: string, identifier: string) {
    exists i :: 0 <= i < |rs| && (rs[i].invitee == invitee || rs[i].identifier == identifier)
  }

  /** `createdAt` is stamped after the checks and before the row is saved, so its week lies anywhere
      between the week of the checks and the current one. `Drop`: the save fails for another reason
      than a duplicate, which is swallowed, or the handler throws. */
  function Next(s: Sys, step: Step): Option<Sys> {
    match step
    case CheckConditions(i, inviter, invitee, identifier, othersHold) =>
      if i < |s.phases| && s.phases[i].Idle? then
        Some(if othersHold && CountNotFailed(s.rewards, inviter, s.week) < WEEKLY_INVITE_LIMIT
                && !(exists j :: 0 <= j < |s.rewards| && s.rewards[j].invitee == invitee)
             then s.(phases := s.phases[i := Cleared(inviter, invitee, identifier, s.week)])
             else s)
      else None
    case CreateReward(i, stamp) =>
      if i < |s.phases| && s.phases[i].Cleared? && s.phases[i].since <= stamp <= s.week then
        var p := s.phases[i];
        Some(s.(phases := s.phases[i := Idle],
                rewards := if Duplicate(s.rewards, p.invitee, p.identifier) then s.rewards
                           else s.rewards + [Reward(p.inviter, p.invitee, p.identifier, stamp, Created, false)]))
      else None
    case Drop(i) =>
      if i < |s.phases| && s.phases[i].Cleared? then Some(s.(phases := s.phases[i := Idle])) else None
    case SetState(r, state) =>
      if r < |s.rewards| then
        var row := s.rewards[r];
        Some(s.(rewards := s.rewards[r := row.(state := state, everFailed := row.everFailed || state == Failed)]))
      else None
    case NextWeek => Some(s.(week := s.week + 1))
  }

  function Exec(s: Sys, steps: seq<Step>): Option<Sys> {
    if steps == [] then Some(s)
    else
      var before := Exec(s, steps[..|steps| - 1]);
      if before.None? then None else Next(before.value, steps[|steps| - 1])
  }

  function Init(instances: nat): Sys {
    Sys([], seq(instances, _ => Idle), 0)
  }

  // ----- The bound

  ghost predicate FailuresRecorded(rs: seq<Reward>) {
    forall i :: 0 <= i < |rs| && rs[i].state == Failed ==> rs[i].everFailed
  }

  ghost predicate WeeksPast(s: Sys) {
    && (forall i :: 0 <= i < |s.rewards| ==> s.rewards[i].week <= s.week)
    && (forall i :: 0 <= i < |s.phases| && s.phases[i].Cleared? ==> s.phases[i].since <= s.week)
  }

  ghost predicate Inv(s: Sys, inviter: string, week: int) {
    && FailuresRecorded(s.rewards)
    && WeeksPast(s)
    && CountInWeek(s.rewards, inviter, week) + CountCleared(s.phases, inviter, week)
       <= ROOM + |s.phases| + CountEverFailed(s.rewards, inviter, week)
  }

  lemma {:induction false} CountSplits(rs: seq<Reward>, inviter: string, week: int)
    requires FailuresRecorded(rs)
    ensures CountInWeek(rs, inviter, week) <= CountNotFailed(rs, inviter, week) + CountEverFailed(rs, inviter, week)
  {
    if rs == [] {
    } else {
      CountSplits(rs[..|rs| - 1], inviter, week);
    }
  }

  lemma {:induction false} NoneInFuture(rs: seq<Reward>, inviter: string, week: int)
    requires forall i :: 0 <= i < |rs| ==> rs[i].week < week
    ensures CountInWeek(rs, inviter, week) == 0
  {
    if rs == [] {
    } else {
      NoneInFuture(rs[..|rs| - 1], inviter, week);
    }
  }

  lemma {:induction false} SetPhaseCount(ps: seq<Phase>, i: nat, p: Phase, inviter: string, week: int)
    requires i < |ps|
    ensures CountCleared(ps[i := p], inviter, week)
         == CountCleared(ps, inviter, week)
            - (if ClearedBy(ps[i], inviter, week) then 1 else 0)
            + (if ClearedBy(p, inviter, week) then 1 else 0)
  {
    var n := |ps| - 1;
    if i == n {
      assert ps[i := p][..n] == ps[..n];
    } else {
      assert ps[i := p][..n] == ps[..n][i := p];
      SetPhaseCount(ps[..n], i, p, inviter, week);
    }
  }

  lemma {:induction false} ClearedAtMostAll(ps: seq<Phase>, inviter: string, week: int)
    ensures CountCleared(ps, inviter, week) <= |ps|
  {
    if ps == [] {
    } else {
      ClearedAtMostAll(ps[..|ps| - 1], inviter, week);
    }
  }

  /** Changing a row's state moves no row to another week and can only add failures. */
  lemma {:induction false} SetStateCounts(rs: seq<Reward>, i: nat, r: Reward, inviter: string, week: int)
    requires i < |rs| && r.inviter == rs[i].inviter && r.week == rs[i].week && (rs[i].everFailed ==> r.everFailed)
    ensures CountInWeek(rs[i := r], inviter, week) == CountInWeek(rs, inviter, week)
    ensures CountEverFailed(rs[i := r], inviter, week) >= CountEverFailed(rs, inviter, week)
  {
    var n := |rs| - 1;
    if i == n {
      assert rs[i := r][..n] == rs[..n];
    } else {
      assert rs[i := r][..n] == rs[..n][i := r];
      SetStateCounts(rs[..n], i, r, inviter, week);
    }
  }

  /** A passed count leaves room for every instance; in a later week nothing exists yet. */
  lemma CheckKeepsBound(s: Sys, i: nat, p: Phase, inviter: string, week: int)
    requires Inv(s, inviter, week) && i < |s.phases| && p.Cleared? && p.since == s.week
    requires CountNotFailed(s.rewards, p.inviter, s.week) < WEEKLY_INVITE_LIMIT
    ensures Inv(s.(phases := s.phases[i := p]), inviter, week)
  {
    SetPhaseCount(s.phases, i, p, inviter, week);
    if ClearedBy(p, inviter, week) {
      ClearedAtMostAll(s.phases[i := p], inviter, week);
      if week == s.week {
        CountSplits(s.rewards, inviter, week);
      } else {
        NoneInFuture(s.rewards, inviter, week);
      }
    }
  }

  lemma AppendCounts(rs: seq<Reward>, r: Reward, inviter: string, week: int)
    ensures CountInWeek(rs + [r], inviter, week)
         == CountInWeek(rs, inviter, week) + if InWeek(r, inviter, week) then 1 else 0
    ensures CountEverFailed(rs + [r], inviter, week) >= CountEverFailed(rs, inviter, week)
  {
  }

  /** An instance that ends without a row only makes room. */
  lemma DropKeepsInv(s: Sys, i: nat, inviter: string, week: int)
    requires Inv(s, inviter, week) && i < |s.phases|
    ensures Inv(s.(phases := s.phases[i := Idle]), inviter, week)
  {
    SetPhaseCount(s.phases, i, Idle, inviter, week);
  }

  lemma AppendKeepsWeeks(s: Sys, i: nat, r: Reward)
    requires WeeksPast(s) && FailuresRecorded(s.rewards) && i < |s.phases|
    requires r.week <= s.week && r.state == Created
    ensures WeeksPast(s.(phases := s.phases[i := Idle], rewards := s.rewards + [r]))
    ensures FailuresRecorded(s.rewards + [r])
  {
  }

  /** The new row takes the place of the instance that was cleared for it. */
  lemma AppendKeepsInv(s: Sys, i: nat, r: Reward, inviter: string, week: int)
    requires Inv(s, inviter, week) && i < |s.phases| && s.phases[i].Cleared?
    requires r.inviter == s.phases[i].inviter && s.phases[i].since <= r.week <= s.week && r.state == Created
    ensures Inv(s.(phases := s.phases[i := Idle], rewards := s.rewards + [r]), inviter, week)
  {
    AppendKeepsWeeks(s, i, r);
    SetPhaseCount(s.phases, i, Idle, inviter, week);
    AppendCounts(s.rewards, r, inviter, week);
  }

  lemma CreateKeepsInv(s: Sys, i: nat, stamp: int, inviter: string, week: int)
    requires Inv(s, inviter, week) && Next(s, CreateReward(i, stamp)).Some?
    ensures Inv(Next(s, CreateReward(i, stamp)).value, inviter, week)
  {
    var p := s.phases[i];
    if Duplicate(s.rewards, p.invitee, p.identifier) {
      DropKeepsInv(s, i, inviter, week);
    } else {
      AppendKeepsInv(s, i, Reward(p.inviter, p.invitee, p.identifier, stamp, Created, false), inviter, week);
    }
  }

  lemma StepKeepsInv(s: Sys, step: Step, inviter: string, week: int)
    requires Inv(s, inviter, week) && Next(s, step).Some?
    ensures Inv(Next(s, step).value, inviter, week)
    ensures |Next(s, step).value.phases| == |s.phases|
  {
    var t := Next(s, step).value;
    match step
    case CheckConditions(i, who, invitee, identifier, _) =>
      if t != s {
        CheckKeepsBound(s, i, Cleared(who, invitee, identifier, s.week), inviter, week);
      }
    case CreateReward(i, stamp) => CreateKeepsInv(s, i, stamp, inviter, week);
    case Drop(i) => DropKeepsInv(s, i, inviter, week);
    case SetState(r, state) => SetStateCounts(s.rewards, r, t.rewards[r], inviter, week);
    case NextWeek =>
  }

  lemma {:induction false} InitPhases(n: nat, inviter: string, week: int)
    ensures CountCleared(seq(n, _ => Idle), inviter, week) == 0
  {
    if n == 0 {
    } else {
      assert seq(n, _ => Idle)[..n - 1] == seq(n - 1, _ => Idle);
      InitPhases(n - 1, inviter, week);
    }
  }

  lemma {:induction false} RunKeepsInv(instances: nat, steps: seq<Step>, inviter: string, week: int)
    requires Exec(Init(instances), steps).Some?
    ensures Inv(Exec(Init(instances), steps).value, inviter, week)
    ensures |Exec(Init(instances), steps).value.phases| == instances
  {
    if steps == [] {
      InitPhases(instances, inviter, week);
    } else {
      RunKeepsInv(instances, steps[..|steps| - 1], inviter, week);
      StepKeepsInv(Exec(Init(instances), steps[..|steps| - 1]).value, steps[|steps| - 1], inviter, week);
    }
  }

  /** With N instances the rewards created for one inviter in one week never exceed 19 + N plus the
      number of those rewards that have ever been Failed. */
  lemma WeeklyLimit(instances: nat, steps: seq<Step>, inviter: string, week: int)
    requires Exec(Init(instances), steps).Some?
    ensures var rs := Exec(Init(instances), steps).value.rewards;
      |RewardsInWeek(rs, inviter, week)| <= 19 + instances + |EverFailedInWeek(rs, inviter, week)|
  {
    RunKeepsInv(instances, steps, inviter, week);
    CountsAreSizes(Exec(Init(instances), steps).value.rewards, inviter, week);
  }

  /** The check, in every reachable state: an idle instance is cleared exactly when the other checks hold,
      the invitee has no reward and fewer than 20 rewards of the inviter and the week are not Failed. */
  lemma CheckExactly(instances: nat, steps: seq<Step>, i: nat, inviter: string, invitee: string,
                     identifier: string, othersHold: bool)
    requires Exec(Init(instances), steps).Some?
    requires var s := Exec(Init(instances), steps).value;
      i < |s.phases| && s.phases[i].Idle?
    ensures var s := Exec(Init(instances), steps).value;
      var next := Next(s, CheckConditions(i, inviter, invitee, identifier, othersHold));
      && next.Some? && next.value.rewards == s.rewards
      && |next.value.phases| == |s.phases|
      && (forall j :: 0 <= j < |s.phases| && j != i ==> next.value.phases[j] == s.phases[j])
      && next.value.phases[i] ==
           if && othersHold
              && (forall j :: 0 <= j < |s.rewards| ==> s.rewards[j].invitee != invitee)
              && |CountedInWeek(s.rewards, inviter, s.week)| < 20
           then Cleared(inviter, invitee, identifier, s.week) else Idle
  {
    var s := Exec(Init(instances), steps).value;
    CountsAreSizes(s.rewards, inviter, s.week);
  }

  /** An instance that was cleared ends with at most one more reward: the one it was cleared for, in state
      Created, of any week since then, and none exactly when the invitee or the identifier has one. */
  lemma SaveExactly(s: Sys, i: nat, week: int)
    requires i < |s.phases| && s.phases[i].Cleared?
    ensures var p, next := s.phases[i], Next(s, CreateReward(i, week));
      && (next.Some? <==> p.since <= week <= s.week)
      && (next.Some? ==>
            && next.value == s.(phases := s.phases[i := Idle], rewards := next.value.rewards)
            && var rs, ts := s.rewards, next.value.rewards;
               if forall j :: 0 <= j < |rs| ==> rs[j].invitee != p.invitee && rs[j].identifier != p.identifier
               then ts == rs + [Reward(p.inviter, p.invitee, p.identifier, week, Created, false)]
               else ts == rs)
    ensures Next(s, Drop(i)) == Some(s.(phases := s.phases[i := Idle]))
  {
  }

  /** A check of one week can lead to a reward of the next one. */
  lemma ChecksOutliveTheWeek(inviter: string, invitee: string, identifier: string) returns (steps: seq<Step>)
    ensures Exec(Init(1), steps).Some?
    ensures Exec(Init(1), steps).value.rewards == [Reward(inviter, invitee, identifier, 1, Created, false)]
    ensures |steps| == 3 && steps[0].CheckConditions?
  {
    var check := CheckConditions(0, inviter, invitee, identifier, true);
    steps := [check, NextWeek, CreateReward(0, 1)];
    assert steps[..0] == [] && steps[..1] == [check] && steps[..2] == [check, NextWeek];
    assert [check][..0] == [] && [check, NextWeek][..1] == [check];
    assert Exec(Init(1), []) == Some(Init(1));
    assert Exec(Init(1), [check]) == Next(Init(1), check);
  }

  // ----- What the rows say

  /** Invitees and identifiers are unique, and `everFailed` remembers whether the row has been Failed. */
  ghost predicate RowsTrue(instances: nat, steps: seq<Step>, s: Sys) {
    && (forall i, j :: 0 <= i < j < |s.rewards| ==>
          s.rewards[i].invitee != s.rewards[j].invitee && s.rewards[i].identifier != s.rewards[j].identifier)
    && (forall i :: 0 <= i < |s.rewards| ==> (s.rewards[i].everFailed <==> HasFailed(instances, steps, i)))
  }

  ghost predicate FailedAt(instances: nat, steps: seq<Step>, k: int, i: nat) {
    && 0 <= k <= |steps| && Exec(Init(instances), steps[..k]).Some?
    && var rs := Exec(Init(instances), steps[..k]).value.rewards; i < |rs| && rs[i].state == Failed
  }

  /** The row was in state Failed after some part of the run. */
  ghost predicate HasFailed(instances: nat, steps: seq<Step>, i: nat) {
    exists k :: FailedAt(instances, steps, k, i)
  }

  lemma SamePrefixes(steps: seq<Step>, step: Step)
    ensures forall k :: 0 <= k <= |steps| ==> (steps + [step])[..k] == steps[..k]
  {
  }

  lemma HasFailedAppend(instances: nat, steps: seq<Step>, step: Step, i: nat)
    ensures HasFailed(instances, steps + [step], i) <==>
      HasFailed(instances, steps, i) || FailedAt(instances, steps + [step], |steps| + 1, i)
  {
    SamePrefixes(steps, step);
    assert forall k :: 0 <= k <= |steps| ==>
      (FailedAt(instances, steps, k, i) <==> FailedAt(instances, steps + [step], k, i));
  }

  lemma {:induction false} NeverBeforeItExists(instances: nat, steps: seq<Step>, k: int)
    requires Exec(Init(instances), steps).Some? && 0 <= k <= |steps|
    ensures Exec(Init(instances), steps[..k]).Some?
    ensures |Exec(Init(instances), steps[..k]).value.rewards| <= |Exec(Init(instances), steps).value.rewards|
    decreases |steps|
  {
    if k < |steps| {
      var front := steps[..|steps| - 1];
      NeverBeforeItExists(instances, front, k);
      assert front[..k] == steps[..k];
    } else {
      assert steps[..k] == steps;
    }
  }

  /** What a step does to the rows: it appends a new one, or changes the state of one. */
  lemma StepRows(s: Sys, step: Step)
    requires Next(s, step).Some?
    ensures var rs, ts := s.rewards, Next(s, step).value.rewards;
      || ts == rs
      || (step.CreateReward? && |ts| == |rs| + 1 && ts[..|rs|] == rs
          && ts[|rs|].state == Created && !ts[|rs|].everFailed
          && forall i :: 0 <= i < |rs| ==>
               rs[i].invitee != ts[|rs|].invitee && rs[i].identifier != ts[|rs|].identifier)
      || (step.SetState? && step.reward < |rs|
          && ts == rs[step.reward := rs[step.reward].(state := step.state,
                       everFailed := rs[step.reward].everFailed || step.state == Failed)])
  {
  }

  lemma {:induction false} RowsTellTruth(instances: nat, steps: seq<Step>)
    requires Exec(Init(instances), steps).Some?
    ensures RowsTrue(instances, steps, Exec(Init(instances), steps).value)
  {
    var t := Exec(Init(instances), steps).value;
    if steps == [] {
    } else {
      var front, last := steps[..|steps| - 1], steps[|steps| - 1];
      var s := Exec(Init(instances), front).value;
      RowsTellTruth(instances, front);
      StepRows(s, last);
      assert steps == front + [last] && steps[..|steps|] == steps;
      forall i: nat | i < |t.rewards|
        ensures t.rewards[i].everFailed <==> HasFailed(instances, steps, i)
      {
        HasFailedAppend(instances, front, last, i);
        if i == |s.rewards| {
          NotFailedYet(instances, front, i);
        } else {
          assert t.rewards[i].everFailed <==> s.rewards[i].everFailed || t.rewards[i].state == Failed by {
            FailedIsRecorded(instances, front, i);
          }
        }
      }
    }
  }

  lemma NotFailedYet(instances: nat, steps: seq<Step>, i: nat)
    requires Exec(Init(instances), steps).Some? && |Exec(Init(instances), steps).value.rewards| <= i
    ensures !HasFailed(instances, steps, i)
  {
    forall k | 0 <= k <= |steps|
      ensures !FailedAt(instances, steps, k, i)
    {
      NeverBeforeItExists(instances, steps, k);
    }
  }

  lemma FailedIsRecorded(instances: nat, steps: seq<Step>, i: nat)
    requires Exec(Init(instances), steps).Some? && RowsTrue(instances, steps, Exec(Init(instances), steps).value)
    requires i < |Exec(Init(instances), steps).value.rewards|
    ensures var row := Exec(Init(instances), steps).value.rewards[i];
      row.state == Failed ==> row.everFailed
  {
    assert steps[..|steps|] == steps;
    if Exec(Init(instances), steps).value.rewards[i].state == Failed {
      assert FailedAt(instances, steps, |steps|, i);
    }
  }

  // ----- The bound is reached, for every number of instances

  ghost predicate Reachable(instances: nat, s: Sys) {
    exists steps :: Exec(Init(instances), steps) == Some(s)
  }

  lemma Extend(instances: nat, s: Sys, step: Step)
    requires Reachable(instances, s) && Next(s, step).Some?
    ensures Reachable(instances, Next(s, step).value)
  {
    var steps :| Exec(Init(instances), steps) == Some(s);
    assert (steps + [step])[..|steps|] == steps;
    assert Exec(Init(instances), steps + [step]) == Next(s, step);
  }

  /** Names that differ for different numbers. */
  function Name(k: nat): string { seq(k, _ => 'a') }

  /** k rewards of the first week, of which the first f have failed. */
  function Rows(f: nat, k: nat): seq<Reward> {
    seq(k, i requires 0 <= i =>
      Reward("inviter", Name(i), Name(i), 0, if i < f then Failed else Created, i < f))
  }

  /** The instances from `lo` to `hi` have passed their checks, for the rewards from `base` on. */
  function Phases(n: nat, base: nat, lo: nat, hi: nat): seq<Phase> {
    seq(n, i requires 0 <= i => if lo <= i < hi then Cleared("inviter", Name(base + i), Name(base + i), 0) else Idle)
  }

  function Quiet(n: nat, f: nat, k: nat): Sys {
    Sys(Rows(f, k), Phases(n, 0, 0, 0), 0)
  }

  lemma {:induction false} RowsCount(f: nat, k: nat)
    ensures CountInWeek(Rows(f, k), "inviter", 0) == k
    ensures CountNotFailed(Rows(f, k), "inviter", 0) == if f <= k then k - f else 0
    ensures CountEverFailed(Rows(f, k), "inviter", 0) == if f <= k then f else k
  {
    if k == 0 {
    } else {
      assert Rows(f, k)[..k - 1] == Rows(f, k - 1);
      RowsCount(f, k - 1);
    }
  }

  lemma NotAmongRows(f: nat, k: nat, j: nat)
    requires k <= j
    ensures forall i :: 0 <= i < k ==> Rows(f, k)[i].invitee != Name(j) && Rows(f, k)[i].identifier != Name(j)
  {
  }

  lemma AppendRow(f: nat, k: nat)
    requires f <= k
    ensures Rows(f, k) + [Reward("inviter", Name(k), Name(k), 0, Created, false)] == Rows(f, k + 1)
  {
  }

  /** The first instance has passed its checks for the next reward. */
  function FirstCleared(n: nat, f: nat, k: nat): Sys
    requires 0 < n
  {
    Sys(Rows(f, k), Phases(n, 0, 0, 0)[0 := Cleared("inviter", Name(k), Name(k), 0)], 0)
  }

  lemma CheckFirst(n: nat, f: nat, k: nat)
    requires 0 < n && f <= k < f + ROOM && Reachable(n, Quiet(n, f, k))
    ensures Reachable(n, FirstCleared(n, f, k))
  {
    RowsCount(f, k);
    NotAmongRows(f, k, k);
    assert Next(Quiet(n, f, k), CheckConditions(0, "inviter", Name(k), Name(k), true)) == Some(FirstCleared(n, f, k));
    Extend(n, Quiet(n, f, k), CheckConditions(0, "inviter", Name(k), Name(k), true));
  }

  lemma CreateFirst(n: nat, f: nat, k: nat)
    requires 0 < n && f <= k && Reachable(n, FirstCleared(n, f, k))
    ensures Reachable(n, Quiet(n, f, k + 1))
  {
    NotAmongRows(f, k, k);
    AppendRow(f, k);
    assert FirstCleared(n, f, k).phases[0 := Idle] == Phases(n, 0, 0, 0);
    assert Next(FirstCleared(n, f, k), CreateReward(0, 0)) == Some(Quiet(n, f, k + 1));
    Extend(n, FirstCleared(n, f, k), CreateReward(0, 0));
  }

  /** f rewards that were created and have failed, one after the other. */
  lemma {:induction false} FailTo(n: nat, f: nat)
    requires 0 < n
    ensures Reachable(n, Quiet(n, f, f))
  {
    if f == 0 {
      assert Init(n) == Quiet(n, 0, 0);
      assert Exec(Init(n), []) == Some(Init(n));
    } else {
      FailTo(n, f - 1);
      CheckFirst(n, f - 1, f - 1);
      CreateFirst(n, f - 1, f - 1);
      Extend(n, Quiet(n, f - 1, f), SetState(f - 1, Failed));
      assert Rows(f - 1, f)[f - 1 := Rows(f - 1, f)[f - 1].(state := Failed, everFailed := true)] == Rows(f, f);
    }
  }

  lemma {:induction false} FillTo(n: nat, f: nat, k: nat)
    requires 0 < n && k <= ROOM
    ensures Reachable(n, Quiet(n, f, f + k))
  {
    if k == 0 {
      FailTo(n, f);
    } else {
      FillTo(n, f, k - 1);
      CheckFirst(n, f, f + k - 1);
      CreateFirst(n, f, f + k - 1);
    }
  }

  lemma ClearOne(n: nat, f: nat, j: nat)
    requires j < n && Reachable(n, Sys(Rows(f, f + ROOM), Phases(n, f + ROOM, 0, j), 0))
    ensures Reachable(n, Sys(Rows(f, f + ROOM), Phases(n, f + ROOM, 0, j + 1), 0))
  {
    var base := f + ROOM;
    var s, step := Sys(Rows(f, base), Phases(n, base, 0, j), 0),
                   CheckConditions(j, "inviter", Name(base + j), Name(base + j), true);
    RowsCount(f, base);
    NotAmongRows(f, base, base + j);
    assert s.phases[j := Cleared("inviter", Name(base + j), Name(base + j), 0)] == Phases(n, base, 0, j + 1);
    assert Next(s, step) == Some(s.(phases := Phases(n, base, 0, j + 1)));
    Extend(n, s, step);
  }

  lemma {:induction false} ClearTo(n: nat, f: nat, j: nat)
    requires 0 < n && j <= n
    ensures Reachable(n, Sys(Rows(f, f + ROOM), Phases(n, f + ROOM, 0, j), 0))
  {
    if j == 0 {
      FillTo(n, f, ROOM);
      assert Phases(n, f + ROOM, 0, 0) == Phases(n, 0, 0, 0);
    } else {
      ClearTo(n, f, j - 1);
      ClearOne(n, f, j - 1);
    }
  }

  lemma {:induction false} CreateTo(n: nat, f: nat, j: nat)
    requires 0 < n && j <= n
    ensures Reachable(n, Sys(Rows(f, f + ROOM + j), Phases(n, f + ROOM, j, n), 0))
  {
    var base := f + ROOM;
    if j == 0 {
      ClearTo(n, f, n);
    } else {
      CreateTo(n, f, j - 1);
      var s := Sys(Rows(f, base + j - 1), Phases(n, base, j - 1, n), 0);
      NotAmongRows(f, base + j - 1, base + j - 1);
      Extend(n, s, CreateReward(j - 1, 0));
      AppendRow(f, base + j - 1);
      assert s.phases[j - 1 := Idle] == Phases(n, base, j, n);
    }
  }

  lemma TightCount(n: nat, f: nat)
    ensures |RewardsInWeek(Rows(f, f + ROOM + n), "inviter", 0)| == 19 + n + f
    ensures |EverFailedInWeek(Rows(f, f + ROOM + n), "inviter", 0)| == f
  {
    RowsCount(f, f + ROOM + n);
    CountsAreSizes(Rows(f, f + ROOM + n), "inviter", 0);
  }

  /** Check-then-act really loses up to N - 1, and a failure really makes room for one more: for every
      N and f some run creates 19 + N + f rewards, f of which have ever failed. */
  lemma WeeklyLimitIsTight(n: nat, f: nat)
    requires 0 < n
    ensures exists s ::
              && Reachable(n, s)
              && |RewardsInWeek(s.rewards, "inviter", 0)| == 19 + n + f
              && |EverFailedInWeek(s.rewards, "inviter", 0)| == f
  {
    CreateTo(n, f, n);
    TightCount(n, f);
    assert Reachable(n, Sys(Rows(f, f + ROOM + n), Phases(n, f + ROOM, n, n), 0));
  }
}
