/** What the session ledger means for an account. A start hands out a new session whenever one quota of
    the last one is used up, so the quota bounds an account by the number of its sessions only; but every
    further session has to be earned by using up the one before. */
module SessionAccounts {
  import opened Common
  import opened Hex
  import opened SessionLedger
  import opened SessionExactness

  // ----- Which sessions a start can find

  ghost predicate StoredLower(s: Sys) {
    forall id :: id in s.sessions ==> Lower(s.sessions[id].externalAccount) == s.sessions[id].externalAccount
  }

  lemma StepKeepsLower(cfg: Config, s: Sys, step: Step)
    requires StoredLower(s) && Next(cfg, s, step).Some?
    ensures StoredLower(Next(cfg, s, step).value)
  {
  }

  lemma {:induction false} RunKeepsLower(cfg: Config, steps: seq<Step>)
    requires Exec(cfg, EMPTY, steps).Some?
    ensures StoredLower(Exec(cfg, EMPTY, steps).value)
  {
    if steps == [] {
    } else {
      RunKeepsLower(cfg, steps[..|steps| - 1]);
      StepKeepsLower(cfg, Exec(cfg, EMPTY, steps[..|steps| - 1]).value, steps[|steps| - 1]);
    }
  }

  /** Sessions are stored under the lower-case account but looked up in the spelling of the request. In
      every run a start finds the sessions of its account exactly when that spelling is lower-case; with
      any other it finds none at all, however many there are. */
  lemma FindsOwnExactly(cfg: Config, steps: seq<Step>, account: string, found: Option<nat>)
    requires Exec(cfg, EMPTY, steps).Some?
    requires Finds(Exec(cfg, EMPTY, steps).value.sessions, account, found)
    requires var s := Exec(cfg, EMPTY, steps).value;
      exists id :: id in s.sessions && s.sessions[id].externalAccount == NormalizeAddress(account)
    ensures found.Some? <==> TrimLeading0x(account) == NormalizeAddress(account)
  {
    RunKeepsLower(cfg, steps);
  }

  // ----- When a start creates a session

  /** A session whose quota of some action has really been used up. */
  ghost predicate UsedUp(cfg: Config, s: Sys, id: nat) {
    exists a :: a in cfg.quota && Used(s.uses, id, a) >= cfg.quota[a]
  }

  lemma SpentIsUsedUp(cfg: Config, s: Sys, row: Session, id: nat)
    requires AtMost(s.uses, row, id) && !HasQuota(cfg.quota, row)
    ensures UsedUp(cfg, s, id)
  {
  }

  /** In every run, whatever overlaps: a start that found a session and yet creates another one does so
      because an action has been used up on the one it found. */
  lemma NewSessionIsEarned(cfg: Config, steps: seq<Step>, start: nat, unused: nat)
    requires Exec(cfg, EMPTY, steps).Some?
    requires var s := Exec(cfg, EMPTY, steps).value;
      && Next(cfg, s, HandOut(start, unused)).Some? && s.starts[start].found.Some?
      && Next(cfg, s, HandOut(start, unused)).value.sessions != s.sessions
    ensures var s := Exec(cfg, EMPTY, steps).value; UsedUp(cfg, s, s.starts[start].found.value.id)
  {
    NeverOvercounts(cfg, steps);
    var s := Exec(cfg, EMPTY, steps).value;
    var f := s.starts[start].found.value;
    assert AtMost(s.uses, f.snapshot, f.id);
    SpentIsUsedUp(cfg, s, f.snapshot, f.id);
  }

  /** While no update is lost, a session has nothing left of some action exactly when that action has been
      used up on it. */
  lemma SpentExactly(cfg: Config, steps: seq<Step>, id: nat)
    requires Exec(cfg, EMPTY, steps).Some? && NoLostUpdate(cfg, steps)
    requires id in Exec(cfg, EMPTY, steps).value.sessions
    ensures var s := Exec(cfg, EMPTY, steps).value;
      !HasQuota(cfg.quota, s.sessions[id]) <==> UsedUp(cfg, s, id)
  {
    RunKeepsGuard(cfg, steps);
    var s := Exec(cfg, EMPTY, steps).value;
    assert RowExact(s.sessions[id], id, s.uses, s.deploys);
    if UsedUp(cfg, s, id) {
      var a :| a in cfg.quota && Used(s.uses, id, a) >= cfg.quota[a];
      assert QuotaLeft(cfg.quota, s.sessions[id], a) <= 0;
    }
  }

  /** While no update is lost, a start creates a session exactly when there is none to find, or an action
      has been used up on the one it finds. */
  lemma StartCreatesExactly(cfg: Config, steps: seq<Step>, start: nat, account: string, found: Option<nat>, unused: nat)
    requires Exec(cfg, EMPTY, steps).Some? && NoLostUpdate(cfg, steps)
    requires var s := Exec(cfg, EMPTY, steps).value;
      && unused !in s.sessions && Next(cfg, s, LookUp(start, account, found)).Some?
    ensures var s := Exec(cfg, EMPTY, steps).value;
      var m := Next(cfg, s, LookUp(start, account, found)).value;
      && Next(cfg, m, HandOut(start, unused)).Some?
      && (unused in Next(cfg, m, HandOut(start, unused)).value.sessions <==>
            found.None? || UsedUp(cfg, s, found.value))
  {
    if found.Some? {
      SpentExactly(cfg, steps, found.value);
    }
  }

  // ----- The bound for an account

  function SessionsOf(s: Sys, account: string): set<nat> {
    set id | id in s.sessions && s.sessions[id].externalAccount == account
  }

  /** The units of an action used on a set of sessions. */
  function UsedOn(uses: seq<Usage>, ids: set<nat>, a: TrackedAction): nat {
    if uses == [] then 0
    else
      var last := uses[|uses| - 1];
      UsedOn(uses[..|uses| - 1], ids, a) + if last.session in ids && last.action == a then last.count else 0
  }

  lemma {:induction false} UsedOnSplits(uses: seq<Usage>, ids: set<nat>, id: nat, a: TrackedAction)
    requires id in ids
    ensures UsedOn(uses, ids, a) == UsedOn(uses, ids - {id}, a) + Used(uses, id, a)
  {
    if uses == [] {
    } else {
      UsedOnSplits(uses[..|uses| - 1], ids, id, a);
    }
  }

  lemma {:induction false} UsedOnNone(uses: seq<Usage>, a: TrackedAction)
    ensures UsedOn(uses, {}, a) == 0
  {
    if uses == [] {
    } else {
      UsedOnNone(uses[..|uses| - 1], a);
    }
  }

  lemma OneMoreTimes(n: nat, limit: nat)
    ensures (n + 1) * limit == n * limit + limit
  {
  }

  lemma {:induction false} UsedOnAtMost(uses: seq<Usage>, ids: set<nat>, a: TrackedAction, limit: nat)
    requires forall id :: id in ids ==> Used(uses, id, a) <= limit
    ensures UsedOn(uses, ids, a) <= |ids| * limit
    decreases |ids|
  {
    if ids == {} {
      UsedOnNone(uses, a);
    } else {
      var id :| id in ids;
      var rest := ids - {id};
      UsedOnSplits(uses, ids, id, a);
      UsedOnAtMost(uses, rest, a, limit);
      OneMoreTimes(|rest|, limit);
    }
  }

  /** Uses of the action are for at most m units each. */
  ghost predicate UnitsAtMost(uses: seq<Usage>, a: TrackedAction, m: nat) {
    forall i :: 0 <= i < |uses| && uses[i].action == a ==> uses[i].count <= m
  }

  lemma {:induction false} LastUseAtMost(uses: seq<Usage>, session: nat, a: TrackedAction, m: nat)
    requires UnitsAtMost(uses, a, m) && LastUse(uses, session, a).Some?
    ensures LastUse(uses, session, a).value <= m
  {
    if uses == [] {
    } else if !(uses[|uses| - 1].session == session && uses[|uses| - 1].action == a) {
      LastUseAtMost(uses[..|uses| - 1], session, a, m);
    }
  }

  lemma GuardMeansAtMost(uses: seq<Usage>, session: nat, a: TrackedAction, limit: nat, m: nat)
    requires 0 < m && UnitsAtMost(uses, a, m) && WithinGuard(uses, session, a, limit)
    ensures Used(uses, session, a) <= limit + m - 1
  {
  }

  /** While no update is lost, an account's usage of an action is at most its number of sessions times the
      quota, plus m - 1 per session when one request may ask for m units. */
  lemma AccountUsageBounded(cfg: Config, steps: seq<Step>, account: string, a: TrackedAction, m: nat)
    requires Exec(cfg, EMPTY, steps).Some? && NoLostUpdate(cfg, steps) && a in cfg.quota && 0 < m
    requires UnitsAtMost(Exec(cfg, EMPTY, steps).value.uses, a, m)
    ensures var s := Exec(cfg, EMPTY, steps).value;
      UsedOn(s.uses, SessionsOf(s, account), a) <= |SessionsOf(s, account)| * (cfg.quota[a] + m - 1)
  {
    RunKeepsGuard(cfg, steps);
    var s := Exec(cfg, EMPTY, steps).value;
    forall id | id in SessionsOf(s, account)
      ensures Used(s.uses, id, a) <= cfg.quota[a] + m - 1
    {
      assert WithinGuard(s.uses, id, a, cfg.quota[a]);
      GuardMeansAtMost(s.uses, id, a, cfg.quota[a], m);
    }
    UsedOnAtMost(s.uses, SessionsOf(s, account), a, cfg.quota[a] + m - 1);
  }

  // ----- Exactly when an account cannot collect sessions without using them up

  /** At most one session of the account has something left of every action. */
  ghost predicate AtMostOneLeft(cfg: Config, s: Sys, account: string) {
    forall i, j ::
      (i in SessionsOf(s, account) && j in SessionsOf(s, account) && !UsedUp(cfg, s, i) && !UsedUp(cfg, s, j))
      ==> i == j
  }

  /** The step creates a session for the account. */
  predicate Creates(cfg: Config, s: Sys, step: Step, account: string) {
    && step.HandOut? && step.start in s.starts && !Reuses(cfg, s.starts[step.start])
    && NormalizeAddress(s.starts[step.start].account) == account
  }

  /** The step creates a session although the account has one that is not used up and that the start has
      not found. */
  ghost predicate BlindCreate(cfg: Config, s: Sys, step: Step, account: string) {
    && Creates(cfg, s, step, account)
    && exists id :: id in SessionsOf(s, account) && !UsedUp(cfg, s, id) && !FoundIt(s.starts[step.start], id)
  }

  predicate FoundIt(start: Start, id: nat) {
    start.found.Some? && start.found.value.id == id
  }

  lemma UsesGrow(cfg: Config, s: Sys, step: Step, id: nat, a: TrackedAction)
    requires Next(cfg, s, step).Some?
    ensures Used(Next(cfg, s, step).value.uses, id, a) >= Used(s.uses, id, a)
  {
  }

  lemma StaysUsedUp(cfg: Config, s: Sys, step: Step, id: nat)
    requires Next(cfg, s, step).Some? && UsedUp(cfg, s, id)
    ensures UsedUp(cfg, Next(cfg, s, step).value, id)
  {
    var a :| a in cfg.quota && Used(s.uses, id, a) >= cfg.quota[a];
    UsesGrow(cfg, s, step, id, a);
    assert Used(Next(cfg, s, step).value.uses, id, a) >= cfg.quota[a];
  }

  /** Sessions keep their account, and only a creation for the account adds one to it. */
  lemma SessionsOfGrow(cfg: Config, s: Sys, step: Step, account: string)
    requires Next(cfg, s, step).Some?
    ensures var t := Next(cfg, s, step).value;
      if Creates(cfg, s, step, account)
      then SessionsOf(t, account) == SessionsOf(s, account) + {step.unused}
           && step.unused !in s.sessions && t.uses == s.uses
      else SessionsOf(t, account) == SessionsOf(s, account)
  {
  }

  /** A session that does not exist yet is used up only if some quota is zero, and then all are. */
  lemma NewIsLeft(cfg: Config, s: Sys, unused: nat, id: nat)
    requires HistoryOk(s) && unused !in s.sessions && !UsedUp(cfg, s, id)
    ensures !UsedUp(cfg, s, unused)
  {
    forall a | a in cfg.quota
      ensures Used(s.uses, unused, a) < cfg.quota[a]
    {
      UnusedSession(s.uses, unused, a);
      assert Used(s.uses, id, a) < cfg.quota[a];
    }
  }

  lemma CreateExactly(cfg: Config, s: Sys, step: Step, account: string)
    requires UpperInv(s) && HistoryOk(s) && AtMostOneLeft(cfg, s, account)
    requires Next(cfg, s, step).Some? && Creates(cfg, s, step, account)
    ensures AtMostOneLeft(cfg, Next(cfg, s, step).value, account) <==> !BlindCreate(cfg, s, step, account)
  {
    var t, start := Next(cfg, s, step).value, s.starts[step.start];
    SessionsOfGrow(cfg, s, step, account);
    assert forall id :: UsedUp(cfg, t, id) <==> UsedUp(cfg, s, id);
    if start.found.Some? {
      assert AtMost(s.uses, start.found.value.snapshot, start.found.value.id);
      SpentIsUsedUp(cfg, s, start.found.value.snapshot, start.found.value.id);
    }
    if BlindCreate(cfg, s, step, account) {
      var id :| id in SessionsOf(s, account) && !UsedUp(cfg, s, id) && !FoundIt(start, id);
      NewIsLeft(cfg, s, step.unused, id);
      assert step.unused in SessionsOf(t, account) && id in SessionsOf(t, account);
    }
  }

  lemma StepLeavesOneExactly(cfg: Config, s: Sys, step: Step, account: string)
    requires UpperInv(s) && HistoryOk(s) && AtMostOneLeft(cfg, s, account) && Next(cfg, s, step).Some?
    ensures AtMostOneLeft(cfg, Next(cfg, s, step).value, account) <==> !BlindCreate(cfg, s, step, account)
  {
    if Creates(cfg, s, step, account) {
      CreateExactly(cfg, s, step, account);
    } else {
      var t := Next(cfg, s, step).value;
      SessionsOfGrow(cfg, s, step, account);
      forall i | i in SessionsOf(t, account) && !UsedUp(cfg, t, i)
        ensures !UsedUp(cfg, s, i)
      {
        if UsedUp(cfg, s, i) {
          StaysUsedUp(cfg, s, step, i);
        }
      }
    }
  }

  ghost predicate AlwaysAtMostOneLeft(cfg: Config, steps: seq<Step>, account: string) {
    && (Exec(cfg, EMPTY, steps).Some? ==> AtMostOneLeft(cfg, Exec(cfg, EMPTY, steps).value, account))
    && (steps == [] || AlwaysAtMostOneLeft(cfg, steps[..|steps| - 1], account))
  }

  ghost predicate NoBlindCreate(cfg: Config, steps: seq<Step>, account: string) {
    steps == [] ||
    var front := steps[..|steps| - 1];
    && NoBlindCreate(cfg, front, account)
    && (Exec(cfg, EMPTY, front).Some? ==>
          !BlindCreate(cfg, Exec(cfg, EMPTY, front).value, steps[|steps| - 1], account))
  }

  /** Over every run, the account has at most one session that is not used up, throughout, exactly when no
      start creates a session while it has one that the start did not find. */
  lemma {:induction false} CollectsNothingExactly(cfg: Config, steps: seq<Step>, account: string)
    requires Exec(cfg, EMPTY, steps).Some?
    ensures AlwaysAtMostOneLeft(cfg, steps, account) <==> NoBlindCreate(cfg, steps, account)
  {
    if steps == [] {
    } else {
      var front := steps[..|steps| - 1];
      CollectsNothingExactly(cfg, front, account);
      NeverOvercounts(cfg, front);
      RunKeepsHistory(cfg, front);
      if AlwaysAtMostOneLeft(cfg, front, account) {
        StepLeavesOneExactly(cfg, Exec(cfg, EMPTY, front).value, steps[|steps| - 1], account);
      }
    }
  }

  // ----- Orderly starts find every session that is left

  /** The account is spelled in lower case, its starts do not overlap, and a session created for it is
      younger than all its earlier ones. */
  ghost predicate OrderlyStart(cfg: Config, s: Sys, step: Step, account: string) {
    && (step.LookUp? && NormalizeAddress(step.account) == account ==>
          && TrimLeading0x(step.account) == account
          && forall r :: r in s.starts ==> NormalizeAddress(s.starts[r].account) != account)
    && (Creates(cfg, s, step, account) ==>
          forall id :: id in SessionsOf(s, account) ==> s.sessions[id].createdAt < s.now)
  }

  ghost predicate OrderlyRun(cfg: Config, steps: seq<Step>, account: string) {
    steps == [] ||
    var front := steps[..|steps| - 1];
    && OrderlyRun(cfg, front, account)
    && (Exec(cfg, EMPTY, front).Some? ==>
          OrderlyStart(cfg, Exec(cfg, EMPTY, front).value, steps[|steps| - 1], account))
  }

  ghost predicate Latest(s: Sys, id: nat) {
    && id in s.sessions
    && forall j :: j in s.sessions && j != id && s.sessions[j].externalAccount == s.sessions[id].externalAccount ==>
         s.sessions[j].createdAt < s.sessions[id].createdAt
  }

  /** A pending start of the account has found its latest session, or there is none. */
  ghost predicate StartOk(s: Sys, start: Start, account: string) {
    NormalizeAddress(start.account) == account ==>
      match start.found
      case None => SessionsOf(s, account) == {}
      case Some(f) => f.id in SessionsOf(s, account) && Latest(s, f.id)
  }

  ghost predicate EarnedInv(cfg: Config, s: Sys, account: string) {
    && UpperInv(s)
    && (forall id :: id in SessionsOf(s, account) ==> Latest(s, id) || UsedUp(cfg, s, id))
    && (SessionsOf(s, account) != {} ==> exists id :: id in SessionsOf(s, account) && Latest(s, id))
    && (forall r :: r in s.starts ==> StartOk(s, s.starts[r], account))
    && (forall r, q ::
          (r in s.starts && q in s.starts
           && NormalizeAddress(s.starts[r].account) == account && NormalizeAddress(s.starts[q].account) == account)
          ==> r == q)
  }

  /** Nothing changes for the account as long as sessions keep their account and age. */
  lemma EarnedFrame(cfg: Config, s: Sys, t: Sys, account: string)
    requires EarnedInv(cfg, s, account) && UpperInv(t)
    requires t.sessions.Keys == s.sessions.Keys
    requires forall id :: id in s.sessions ==>
      t.sessions[id].externalAccount == s.sessions[id].externalAccount
      && t.sessions[id].createdAt == s.sessions[id].createdAt
    requires forall r :: r in t.starts ==> r in s.starts && t.starts[r] == s.starts[r]
    requires forall id, a :: Used(t.uses, id, a) >= Used(s.uses, id, a)
    ensures EarnedInv(cfg, t, account)
  {
    assert SessionsOf(t, account) == SessionsOf(s, account);
    assert forall id :: Latest(s, id) ==> Latest(t, id);
    forall id | UsedUp(cfg, s, id)
      ensures UsedUp(cfg, t, id)
    {
      var a :| a in cfg.quota && Used(s.uses, id, a) >= cfg.quota[a];
      assert Used(t.uses, id, a) >= cfg.quota[a];
    }
    forall r | r in t.starts
      ensures StartOk(t, t.starts[r], account)
    {
      assert StartOk(s, s.starts[r], account);
    }
  }

  lemma LookUpKeepsEarned(cfg: Config, s: Sys, step: Step, account: string)
    requires EarnedInv(cfg, s, account) && step.LookUp? && OrderlyStart(cfg, s, step, account)
    requires Next(cfg, s, step).Some? && UpperInv(Next(cfg, s, step).value)
    ensures EarnedInv(cfg, Next(cfg, s, step).value, account)
  {
    var t := Next(cfg, s, step).value;
    assert SessionsOf(t, account) == SessionsOf(s, account);
    assert forall id :: Latest(t, id) <==> Latest(s, id);
    assert forall id :: UsedUp(cfg, t, id) <==> UsedUp(cfg, s, id);
    if NormalizeAddress(step.account) == account && step.found.Some? {
      FoundIsLatest(cfg, s, step.found.value, account);
    }
    forall r | r in t.starts
      ensures StartOk(t, t.starts[r], account)
    {
      assert r != step.start ==> StartOk(s, s.starts[r], account);
    }
  }

  lemma FoundIsLatest(cfg: Config, s: Sys, id: nat, account: string)
    requires EarnedInv(cfg, s, account) && id in SessionsOf(s, account)
    requires forall j :: j in SessionsOf(s, account) ==> s.sessions[j].createdAt <= s.sessions[id].createdAt
    ensures Latest(s, id)
  {
  }

  lemma CreateKeepsEarned(cfg: Config, s: Sys, start: nat, unused: nat, account: string)
    requires EarnedInv(cfg, s, account) && OrderlyStart(cfg, s, HandOut(start, unused), account)
    requires Next(cfg, s, HandOut(start, unused)).Some? && !Reuses(cfg, s.starts[start])
    requires NormalizeAddress(s.starts[start].account) == account
    requires UpperInv(Next(cfg, s, HandOut(start, unused)).value)
    ensures EarnedInv(cfg, Next(cfg, s, HandOut(start, unused)).value, account)
  {
    var t := Next(cfg, s, HandOut(start, unused)).value;
    assert SessionsOf(t, account) == SessionsOf(s, account) + {unused};
    assert Latest(t, unused);
    assert StartOk(s, s.starts[start], account);
    forall id | id in SessionsOf(s, account)
      ensures UsedUp(cfg, t, id)
    {
      if Latest(s, id) {
        var f := s.starts[start].found.value;
        assert f.id == id;
        assert AtMost(s.uses, f.snapshot, f.id);
        SpentIsUsedUp(cfg, s, f.snapshot, f.id);
      }
      var a :| a in cfg.quota && Used(s.uses, id, a) >= cfg.quota[a];
      assert Used(t.uses, id, a) >= cfg.quota[a];
    }
  }

  lemma OtherCreateKeepsEarned(cfg: Config, s: Sys, start: nat, unused: nat, account: string)
    requires EarnedInv(cfg, s, account) && Next(cfg, s, HandOut(start, unused)).Some? && !Reuses(cfg, s.starts[start])
    requires NormalizeAddress(s.starts[start].account) != account
    requires UpperInv(Next(cfg, s, HandOut(start, unused)).value)
    ensures EarnedInv(cfg, Next(cfg, s, HandOut(start, unused)).value, account)
  {
    var t := Next(cfg, s, HandOut(start, unused)).value;
    assert SessionsOf(t, account) == SessionsOf(s, account);
    assert forall id :: id in SessionsOf(s, account) && Latest(s, id) ==> Latest(t, id);
    assert forall id :: UsedUp(cfg, t, id) <==> UsedUp(cfg, s, id);
    forall r | r in t.starts
      ensures StartOk(t, t.starts[r], account)
    {
      assert StartOk(s, s.starts[r], account);
    }
  }

  lemma StepKeepsEarned(cfg: Config, s: Sys, step: Step, account: string)
    requires EarnedInv(cfg, s, account) && OrderlyStart(cfg, s, step, account) && Next(cfg, s, step).Some?
    ensures EarnedInv(cfg, Next(cfg, s, step).value, account)
  {
    StepKeepsUpper(cfg, s, step);
    if step.LookUp? {
      LookUpKeepsEarned(cfg, s, step, account);
    } else if step.HandOut? && !Reuses(cfg, s.starts[step.start]) {
      if NormalizeAddress(s.starts[step.start].account) == account {
        CreateKeepsEarned(cfg, s, step.start, step.unused, account);
      } else {
        OtherCreateKeepsEarned(cfg, s, step.start, step.unused, account);
      }
    } else {
      forall id, a
        ensures Used(Next(cfg, s, step).value.uses, id, a) >= Used(s.uses, id, a)
      {
        UsesGrow(cfg, s, step, id, a);
      }
      EarnedFrame(cfg, s, Next(cfg, s, step).value, account);
    }
  }

  lemma EarnedIsNotBlind(cfg: Config, s: Sys, step: Step, account: string)
    requires EarnedInv(cfg, s, account)
    ensures !BlindCreate(cfg, s, step, account)
  {
    if Creates(cfg, s, step, account) {
      assert StartOk(s, s.starts[step.start], account);
    }
  }

  lemma {:induction false} OrderlyIsNotBlind(cfg: Config, steps: seq<Step>, account: string)
    requires Exec(cfg, EMPTY, steps).Some? && OrderlyRun(cfg, steps, account)
    ensures EarnedInv(cfg, Exec(cfg, EMPTY, steps).value, account) && NoBlindCreate(cfg, steps, account)
  {
    if steps == [] {
    } else {
      OrderlyIsNotBlind(cfg, steps[..|steps| - 1], account);
      StepKeepsEarned(cfg, Exec(cfg, EMPTY, steps[..|steps| - 1]).value, steps[|steps| - 1], account);
      EarnedIsNotBlind(cfg, Exec(cfg, EMPTY, steps[..|steps| - 1]).value, steps[|steps| - 1], account);
    }
  }

  /** In orderly runs no start creates a session blindly, so of any two sessions of the account one has
      been used up: it cannot collect sessions without using them. */
  lemma AllButLatestUsedUp(cfg: Config, steps: seq<Step>, account: string, i: nat, j: nat)
    requires Exec(cfg, EMPTY, steps).Some? && OrderlyRun(cfg, steps, account)
    requires var s := Exec(cfg, EMPTY, steps).value;
      i in SessionsOf(s, account) && j in SessionsOf(s, account) && i != j
    ensures NoBlindCreate(cfg, steps, account)
    ensures var s := Exec(cfg, EMPTY, steps).value; UsedUp(cfg, s, i) || UsedUp(cfg, s, j)
  {
    OrderlyIsNotBlind(cfg, steps, account);
    CollectsNothingExactly(cfg, steps, account);
  }

  const BOTH_LOOKED := EMPTY.(starts := map[0 := Start("account", None), 1 := Start("account", None)])

  lemma BothLookUp() returns (steps: seq<Step>)
    ensures Exec(ONE_EACH, EMPTY, steps) == Some(BOTH_LOOKED)
  {
    var s;
    s, steps := Extend(EMPTY, [], LookUp(0, "account", None));
    assert s == EMPTY.(starts := map[0 := Start("account", None)]);
    s, steps := Extend(s, steps, LookUp(1, "account", None));
    assert s == BOTH_LOOKED;
  }

  const TWO_SESSIONS := EMPTY.(sessions := map[0 := NewSession("account", 0), 1 := NewSession("account", 0)])

  lemma BothCreate() returns (steps: seq<Step>)
    ensures Exec(ONE_EACH, EMPTY, steps) == Some(TWO_SESSIONS)
  {
    var s;
    steps := BothLookUp();
    s, steps := Extend(BOTH_LOOKED, steps, HandOut(0, 0));
    assert s == EMPTY.(starts := map[1 := Start("account", None)], sessions := map[0 := NewSession("account", 0)]);
    s, steps := Extend(s, steps, HandOut(1, 1));
    assert s == TWO_SESSIONS;
  }

  /** Overlapping starts of one account both find nothing, and both create a session. */
  lemma OverlapCollectsSessions() returns (steps: seq<Step>)
    ensures Exec(ONE_EACH, EMPTY, steps) == Some(TWO_SESSIONS)
    ensures |SessionsOf(TWO_SESSIONS, "account")| == 2
    ensures !UsedUp(ONE_EACH, TWO_SESSIONS, 0) && !UsedUp(ONE_EACH, TWO_SESSIONS, 1)
    ensures !AtMostOneLeft(ONE_EACH, TWO_SESSIONS, "account")
  {
    steps := BothCreate();
    assert NormalizeAddress("account") == "account";
    assert SessionsOf(TWO_SESSIONS, "account") == {0, 1};
  }
}
