/** Each invitee gets at most one row and at most one relayer call that is not a retry, in every run
    whatsoever: no hypothesis on the relayer, on transactions or on timing. */
module RewardFirstSends {
  import opened Common
  import opened RewardEntity
  import opened RewardSender

  ghost predicate OneRowPerInvitee(s: Sys) {
    forall i, j :: i in s.rows && j in s.rows && s.rows[i].invitee == s.rows[j].invitee ==> i == j
  }

  /** A first send is still to come exactly for the rows that are Relaying. */
  ghost predicate SentIffRelayed(s: Sys) {
    && s.first.Keys == s.rows.Keys
    && (forall id :: id in s.rows ==> (s.rows[id].invitee in s.firstSends <==> !s.first[id].Relaying?))
    && (forall who :: who in s.firstSends ==> exists id :: id in s.rows && s.rows[id].invitee == who)
  }

  ghost predicate NoRepeat(sends: seq<string>) {
    forall i, j :: 0 <= i < j < |sends| ==> sends[i] != sends[j]
  }

  ghost predicate WritesKeepInvitee(s: Sys) {
    && s.locks.Keys <= s.rows.Keys
    && forall id :: id in s.locks && s.locks[id].write.Some? ==>
         s.locks[id].write.value.invitee == s.rows[id].invitee
  }

  ghost predicate FirstSendsInv(s: Sys) {
    OneRowPerInvitee(s) && SentIffRelayed(s) && NoRepeat(s.firstSends) && WritesKeepInvitee(s)
  }

  /** Rows keep their invitees and first sends their phase. */
  ghost predicate Quiet(s: Sys, t: Sys) {
    && t.firstSends == s.firstSends && t.rows.Keys == s.rows.Keys && t.first.Keys == s.first.Keys
    && (forall id :: id in s.rows ==> t.rows[id].invitee == s.rows[id].invitee)
    && (forall id :: id in s.first ==> (t.first[id].Relaying? <==> s.first[id].Relaying?))
    && WritesKeepInvitee(t)
  }

  lemma Frame(s: Sys, t: Sys)
    requires FirstSendsInv(s) && Quiet(s, t)
    ensures FirstSendsInv(t)
  {
  }

  lemma CreateKeepsFirstSends(s: Sys, id: nat, invitee: string)
    requires FirstSendsInv(s) && NextFirst(s, Create(id, invitee)).Some?
    ensures FirstSendsInv(NextFirst(s, Create(id, invitee)).value)
  {
    var t := NextFirst(s, Create(id, invitee)).value;
    if t != s {
      assert invitee !in s.firstSends;
      forall who | who in t.firstSends
        ensures exists j :: j in t.rows && t.rows[j].invitee == who
      {
        var j :| j in s.rows && s.rows[j].invitee == who;
        assert t.rows[j].invitee == who;
      }
    }
  }

  lemma FirstRelayKeepsFirstSends(s: Sys, id: nat, reply: Reply)
    requires FirstSendsInv(s) && NextFirst(s, FirstRelay(id, reply)).Some?
    ensures FirstSendsInv(NextFirst(s, FirstRelay(id, reply)).value)
  {
    var t := NextFirst(s, FirstRelay(id, reply)).value;
    assert t.firstSends == s.firstSends + [s.rows[id].invitee];
    forall who | who in t.firstSends
      ensures exists j :: j in t.rows && t.rows[j].invitee == who
    {
      if who == s.rows[id].invitee {
        assert t.rows[id].invitee == who;
      } else {
        assert who in s.firstSends;
        var j :| j in s.rows && s.rows[j].invitee == who;
        assert t.rows[j].invitee == who;
      }
    }
  }

  lemma RetryWritesSameInvitee(s: Sys, step: Step)
    requires step.Look? || step.RetryRelay? || step.RetryWrite?
    requires NextRetry(s, step).Some?
    ensures step.id in s.locks && step.id in s.rows && step.id in NextRetry(s, step).value.locks
    ensures var before, after := s.locks[step.id].write, NextRetry(s, step).value.locks[step.id].write;
      after == before || (after.Some? && after.value.invitee == s.rows[step.id].invitee)
  {
  }

  lemma RetryIsQuiet(s: Sys, step: Step)
    requires step.Look? || step.RetryRelay? || step.RetryWrite?
    requires WritesKeepInvitee(s) && NextRetry(s, step).Some?
    ensures Quiet(s, NextRetry(s, step).value)
  {
    RetryShape(s, step);
    RetryWritesSameInvitee(s, step);
  }

  lemma TxnIsQuiet(s: Sys, step: Step)
    requires step.LockRows? || step.Commit? || step.Rollback?
    requires WritesKeepInvitee(s) && NextTxn(s, step).Some?
    ensures Quiet(s, NextTxn(s, step).value)
  {
  }

  lemma OtherIsQuiet(s: Sys, step: Step)
    requires step.FirstWrite? || step.Observe? || step.WatchWrite? || step.Mine? || step.Clock?
    requires WritesKeepInvitee(s) && Next(s, step).Some?
    ensures Quiet(s, Next(s, step).value)
  {
  }

  lemma StepKeepsFirstSends(s: Sys, step: Step)
    requires FirstSendsInv(s) && Next(s, step).Some?
    ensures FirstSendsInv(Next(s, step).value)
  {
    if step.Create? {
      CreateKeepsFirstSends(s, step.id, step.invitee);
    } else if step.FirstRelay? {
      FirstRelayKeepsFirstSends(s, step.id, step.reply);
    } else {
      if step.Look? || step.RetryRelay? || step.RetryWrite? {
        RetryIsQuiet(s, step);
      } else if step.LockRows? || step.Commit? || step.Rollback? {
        TxnIsQuiet(s, step);
      } else {
        OtherIsQuiet(s, step);
      }
      Frame(s, Next(s, step).value);
    }
  }

  lemma {:induction false} RunKeepsFirstSends(now: int, steps: seq<Step>)
    requires Exec(Init(now), steps).Some?
    ensures FirstSendsInv(Exec(Init(now), steps).value)
  {
    if steps == [] {
    } else {
      RunKeepsFirstSends(now, steps[..|steps| - 1]);
      StepKeepsFirstSends(Exec(Init(now), steps[..|steps| - 1]).value, steps[|steps| - 1]);
    }
  }

  /** Each invitee has at most one row, its first send is relayed at most once, and it has been
      relayed exactly when the row is past that phase. */
  lemma OneFirstSendPerInvitee(now: int, steps: seq<Step>)
    requires Exec(Init(now), steps).Some?
    ensures var s := Exec(Init(now), steps).value;
      && (forall i, j :: i in s.rows && j in s.rows && s.rows[i].invitee == s.rows[j].invitee ==> i == j)
      && (forall i, j :: 0 <= i < j < |s.firstSends| ==> s.firstSends[i] != s.firstSends[j])
      && (forall id :: id in s.rows ==>
            id in s.first && (s.rows[id].invitee in s.firstSends <==> !s.first[id].Relaying?))
  {
    RunKeepsFirstSends(now, steps);
  }
}
