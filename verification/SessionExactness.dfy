/** How far the stored counts agree with what was used: never too much, whatever interleaves, and
    exactly in the runs whose writes lose no other request's update. */
module SessionExactness {
  import opened Common
  import opened SessionLedger

  // ----- Every run: the ledger never overcounts

  ghost predicate AtMost(uses: seq<Usage>, row: Session, session: nat) {
    forall a :: ActionCount(row, a) <= Used(uses, session, a)
  }

  ghost predicate UpperInv(s: Sys) {
    && (forall id :: id in s.sessions ==> AtMost(s.uses, s.sessions[id], id))
    && (forall r :: r in s.pending ==> AtMost(s.uses, s.pending[r].snapshot, s.pending[r].session))
    && (forall r :: r in s.starts && s.starts[r].found.Some? ==>
          AtMost(s.uses, s.starts[r].found.value.snapshot, s.starts[r].found.value.id))
  }

  lemma UseKeepsAtMost(uses: seq<Usage>, u: Usage, row: Session, session: nat)
    requires AtMost(uses, row, session)
    ensures AtMost(uses + [u], row, session)
  {
  }

  lemma UsageAtMost(uses: seq<Usage>, row: Session, snapshot: Session, session: nat, a: TrackedAction, count: nat)
    requires AtMost(uses, snapshot, session)
    ensures AtMost(uses + [Usage(session, a, count)], WithUsage(row, snapshot, a, count), session)
  {
  }

  lemma UseKeepsUpper(cfg: Config, s: Sys, step: Step)
    requires UpperInv(s) && Next(cfg, s, step).Some? && step.Complete? && s.pending[step.id].request.Use?
    ensures UpperInv(Next(cfg, s, step).value)
  {
    var t, p := Next(cfg, s, step).value, s.pending[step.id];
    var u := Usage(p.session, p.request.action, p.request.count);
    UsageAtMost(s.uses, s.sessions[p.session], p.snapshot, p.session, u.action, u.count);
    forall id | id in s.sessions
      ensures AtMost(s.uses + [u], s.sessions[id], id)
    {
      UseKeepsAtMost(s.uses, u, s.sessions[id], id);
    }
    forall r | r in s.pending
      ensures AtMost(s.uses + [u], s.pending[r].snapshot, s.pending[r].session)
    {
      UseKeepsAtMost(s.uses, u, s.pending[r].snapshot, s.pending[r].session);
    }
    forall r | r in s.starts && s.starts[r].found.Some?
      ensures AtMost(s.uses + [u], s.starts[r].found.value.snapshot, s.starts[r].found.value.id)
    {
      UseKeepsAtMost(s.uses, u, s.starts[r].found.value.snapshot, s.starts[r].found.value.id);
    }
  }

  lemma StepKeepsUpper(cfg: Config, s: Sys, step: Step)
    requires UpperInv(s) && Next(cfg, s, step).Some?
    ensures UpperInv(Next(cfg, s, step).value)
  {
    if step.Complete? && s.pending[step.id].request.Use? {
      UseKeepsUpper(cfg, s, step);
    } else if step.Complete? {
      var p := s.pending[step.id];
      assert AtMost(s.uses, p.snapshot, p.session);
      assert AtMost(s.uses, Next(cfg, s, step).value.sessions[p.session], p.session);
    } else if step.HandOut? {
      assert AtMost(s.uses, NewSession(s.starts[step.start].account, s.now), step.unused);
    }
  }

  /** However requests interleave, a stored count never exceeds the units successfully used: users are
      never charged for more than they got. */
  lemma {:induction false} NeverOvercounts(cfg: Config, steps: seq<Step>)
    requires Exec(cfg, EMPTY, steps).Some?
    ensures UpperInv(Exec(cfg, EMPTY, steps).value)
  {
    if steps == [] {
    } else {
      NeverOvercounts(cfg, steps[..|steps| - 1]);
      StepKeepsUpper(cfg, Exec(cfg, EMPTY, steps[..|steps| - 1]).value, steps[|steps| - 1]);
    }
  }

  // ----- Exactly when the ledger is exact

  ghost predicate RowExact(row: Session, session: nat, uses: seq<Usage>, deploys: map<nat, WalletDeploy>) {
    && (forall a :: ActionCount(row, a) == Used(uses, session, a))
    && Deploy(row) == RecordedDeploy(deploys, session)
  }

  ghost predicate LedgerExact(s: Sys) {
    forall id :: id in s.sessions ==> RowExact(s.sessions[id], id, s.uses, s.deploys)
  }

  /** What a request is about to overwrite is what it has read. A deploy overwrites no earlier deploy
      that it would have to keep. */
  predicate Current(s: Sys, p: Pending)
    requires p.session in s.sessions
  {
    && (forall a :: ActionCount(s.sessions[p.session], a) == ActionCount(p.snapshot, a))
    && (p.request.Use? ==> Deploy(s.sessions[p.session]) == Deploy(p.snapshot))
  }

  /** The step overwrites an update that it has not read. */
  predicate LosesUpdate(s: Sys, step: Step) {
    && step.Complete? && step.id in s.pending && s.pending[step.id].session in s.sessions
    && !Current(s, s.pending[step.id])
  }

  ghost predicate HistoryOk(s: Sys) {
    && s.deploys.Keys <= s.sessions.Keys
    && (forall i :: 0 <= i < |s.uses| ==> s.uses[i].session in s.sessions)
  }

  lemma UseExactly(row: Session, snapshot: Session, session: nat, uses: seq<Usage>,
                   deploys: map<nat, WalletDeploy>, a: TrackedAction, count: nat)
    requires RowExact(row, session, uses, deploys)
    ensures RowExact(WithUsage(row, snapshot, a, count), session, uses + [Usage(session, a, count)], deploys)
       <==> (forall b :: ActionCount(row, b) == ActionCount(snapshot, b)) && Deploy(row) == Deploy(snapshot)
  {
    var after, grown := WithUsage(row, snapshot, a, count), uses + [Usage(session, a, count)];
    forall b
      ensures ActionCount(after, b) == Used(grown, session, b) <==> ActionCount(row, b) == ActionCount(snapshot, b)
    {
      UsedAppend(uses, Usage(session, a, count), session, b);
    }
  }

  lemma DeployExactly(row: Session, snapshot: Session, session: nat, uses: seq<Usage>,
                      deploys: map<nat, WalletDeploy>, d: WalletDeploy)
    requires RowExact(row, session, uses, deploys)
    ensures RowExact(WithDeploy(row, snapshot, d), session, uses, deploys[session := d])
       <==> forall b :: ActionCount(row, b) == ActionCount(snapshot, b)
  {
  }

  lemma OtherRowStaysExact(row: Session, session: nat, uses: seq<Usage>, deploys: map<nat, WalletDeploy>,
                           u: Usage, other: nat, d: WalletDeploy)
    requires RowExact(row, session, uses, deploys) && u.session != session && other != session
    ensures RowExact(row, session, uses + [u], deploys) && RowExact(row, session, uses, deploys[other := d])
  {
  }

  lemma FinishExactly(s: Sys, id: nat, p: Pending, startedAt: int, txHash: int)
    requires LedgerExact(s) && id in s.pending && p == s.pending[id] && p.session in s.sessions
    ensures LedgerExact(Finish(s, id, p, startedAt, txHash)) <==> Current(s, p)
  {
    var t, row := Finish(s, id, p, startedAt, txHash), s.sessions[p.session];
    match p.request
    case Use(a, count) =>
      var u := Usage(p.session, a, count);
      UseExactly(row, p.snapshot, p.session, s.uses, s.deploys, a, count);
      forall j | j in s.sessions && j != p.session
        ensures RowExact(t.sessions[j], j, t.uses, t.deploys)
      {
        OtherRowStaysExact(s.sessions[j], j, s.uses, s.deploys, u, p.session, WalletDeploy(0, 0, ""));
      }
      assert RowExact(t.sessions[p.session], p.session, t.uses, t.deploys) <==> Current(s, p);
    case DeployWallet(implementation, _) =>
      var d := WalletDeploy(startedAt, txHash, implementation);
      DeployExactly(row, p.snapshot, p.session, s.uses, s.deploys, d);
      forall j | j in s.sessions && j != p.session
        ensures RowExact(t.sessions[j], j, t.uses, t.deploys)
      {
        assert RowExact(s.sessions[j], j, s.uses, s.deploys);
      }
      assert RowExact(t.sessions[p.session], p.session, t.uses, t.deploys) <==> Current(s, p);
  }

  lemma HandOutKeepsExact(cfg: Config, s: Sys, start: nat, unused: nat)
    requires LedgerExact(s) && HistoryOk(s) && Next(cfg, s, HandOut(start, unused)).Some?
    ensures LedgerExact(Next(cfg, s, HandOut(start, unused)).value)
  {
    var t := Next(cfg, s, HandOut(start, unused)).value;
    if unused !in s.sessions {
      forall a
        ensures Used(s.uses, unused, a) == 0
      {
        UnusedSession(s.uses, unused, a);
      }
      assert RowExact(NewSession(s.starts[start].account, s.now), unused, s.uses, s.deploys);
    }
    forall j | j in t.sessions
      ensures RowExact(t.sessions[j], j, t.uses, t.deploys)
    {
      assert j in s.sessions ==> RowExact(s.sessions[j], j, s.uses, s.deploys);
    }
  }

  lemma StepExactly(cfg: Config, s: Sys, step: Step)
    requires LedgerExact(s) && HistoryOk(s) && Next(cfg, s, step).Some?
    ensures LedgerExact(Next(cfg, s, step).value) <==> !LosesUpdate(s, step)
  {
    if step.Complete? {
      FinishExactly(s, step.id, s.pending[step.id], step.startedAt, step.txHash);
    } else if step.HandOut? {
      HandOutKeepsExact(cfg, s, step.start, step.unused);
    }
  }

  lemma StepKeepsHistory(cfg: Config, s: Sys, step: Step)
    requires HistoryOk(s) && Next(cfg, s, step).Some?
    ensures HistoryOk(Next(cfg, s, step).value)
  {
  }

  ghost predicate StaysExact(cfg: Config, steps: seq<Step>) {
    && (Exec(cfg, EMPTY, steps).Some? ==> LedgerExact(Exec(cfg, EMPTY, steps).value))
    && (steps == [] || StaysExact(cfg, steps[..|steps| - 1]))
  }

  predicate NoLostUpdate(cfg: Config, steps: seq<Step>) {
    steps == [] ||
    var front := steps[..|steps| - 1];
    && NoLostUpdate(cfg, front)
    && (Exec(cfg, EMPTY, front).Some? ==> !LosesUpdate(Exec(cfg, EMPTY, front).value, steps[|steps| - 1]))
  }

  lemma {:induction false} RunKeepsHistory(cfg: Config, steps: seq<Step>)
    requires Exec(cfg, EMPTY, steps).Some?
    ensures HistoryOk(Exec(cfg, EMPTY, steps).value)
  {
    if steps == [] {
    } else {
      RunKeepsHistory(cfg, steps[..|steps| - 1]);
      StepKeepsHistory(cfg, Exec(cfg, EMPTY, steps[..|steps| - 1]).value, steps[|steps| - 1]);
    }
  }

  /** Over every run, each stored count is the sum of the successful uses and each stored deploy the last
      one, throughout, exactly when every request that completes still finds what it has read. */
  lemma {:induction false} LedgerExactExactly(cfg: Config, steps: seq<Step>)
    requires Exec(cfg, EMPTY, steps).Some?
    ensures StaysExact(cfg, steps) <==> NoLostUpdate(cfg, steps)
  {
    if steps == [] {
    } else {
      var front := steps[..|steps| - 1];
      LedgerExactExactly(cfg, front);
      RunKeepsHistory(cfg, front);
      if StaysExact(cfg, front) {
        StepExactly(cfg, Exec(cfg, EMPTY, front).value, steps[|steps| - 1]);
      }
    }
  }

  // ----- The quota in such runs

  /** The usage that the guard lets through: below the quota plus the size of the last request. */
  ghost predicate WithinGuard(uses: seq<Usage>, session: nat, a: TrackedAction, limit: nat) {
    match LastUse(uses, session, a)
    case None => Used(uses, session, a) == 0
    case Some(n) => Used(uses, session, a) < limit + n
  }

  ghost predicate GuardKept(cfg: Config, s: Sys) {
    && (forall r :: r in s.pending ==> Admits(cfg, s.pending[r].snapshot, s.pending[r].request))
    && (forall id: nat, a :: a in cfg.quota ==> WithinGuard(s.uses, id, a, cfg.quota[a]))
  }

  lemma StepKeepsGuard(cfg: Config, s: Sys, step: Step)
    requires GuardKept(cfg, s) && LedgerExact(s) && Next(cfg, s, step).Some? && !LosesUpdate(s, step)
    ensures GuardKept(cfg, Next(cfg, s, step).value)
  {
    var t := Next(cfg, s, step).value;
    if step.Complete? && s.pending[step.id].request.Use? {
      var p := s.pending[step.id];
      assert RowExact(s.sessions[p.session], p.session, s.uses, s.deploys);
      forall id: nat, a | a in cfg.quota
        ensures WithinGuard(t.uses, id, a, cfg.quota[a])
      {
        assert WithinGuard(s.uses, id, a, cfg.quota[a]);
        assert t.uses[..|s.uses|] == s.uses;
      }
    }
  }

  lemma {:induction false} RunKeepsGuard(cfg: Config, steps: seq<Step>)
    requires Exec(cfg, EMPTY, steps).Some? && NoLostUpdate(cfg, steps)
    ensures GuardKept(cfg, Exec(cfg, EMPTY, steps).value) && LedgerExact(Exec(cfg, EMPTY, steps).value)
  {
    LedgerExactExactly(cfg, steps);
    if steps == [] {
    } else {
      RunKeepsGuard(cfg, steps[..|steps| - 1]);
      StepKeepsGuard(cfg, Exec(cfg, EMPTY, steps[..|steps| - 1]).value, steps[|steps| - 1]);
    }
  }

  /** While no update is lost, quotaLeft plus usage is the quota, and usage stays below the quota plus the
      size of the last request, hence within the quota for single-unit actions. */
  lemma QuotaHolds(cfg: Config, steps: seq<Step>, session: nat, a: TrackedAction)
    requires Exec(cfg, EMPTY, steps).Some? && NoLostUpdate(cfg, steps) && a in cfg.quota
    requires session in Exec(cfg, EMPTY, steps).value.sessions
    ensures var s := Exec(cfg, EMPTY, steps).value;
      && RowExact(s.sessions[session], session, s.uses, s.deploys)
      && QuotaLeft(cfg.quota, s.sessions[session], a) + Used(s.uses, session, a) == cfg.quota[a]
      && WithinGuard(s.uses, session, a, cfg.quota[a])
      && (LastUse(s.uses, session, a) == Some(1) ==> Used(s.uses, session, a) <= cfg.quota[a])
  {
    RunKeepsGuard(cfg, steps);
    var s := Exec(cfg, EMPTY, steps).value;
    assert RowExact(s.sessions[session], session, s.uses, s.deploys);
    assert WithinGuard(s.uses, session, a, cfg.quota[a]);
  }

  // ----- Which requests go through, and how far apart deploys are

  /** The stored row shows a deploy of the implementation that has not timed out. */
  ghost predicate Deploying(row: Session, implementation: string, now: int, timeout: int) {
    && row.meta.Some? && row.meta.value.walletDeploy.Some?
    && row.meta.value.walletDeploy.value.implementation == implementation
    && now < row.meta.value.walletDeploy.value.startedAt + timeout
  }

  /** A request is let through, with the session as it is stored, exactly when the guard of its kind holds:
      quota left for a use, a known implementation that is not being deployed for a deploy. */
  lemma ArriveExactly(cfg: Config, s: Sys, id: nat, session: nat, request: Request)
    requires Next(cfg, s, Arrive(id, session, request)).Some?
    ensures var t := Next(cfg, s, Arrive(id, session, request)).value;
      && t == s.(pending := t.pending) && session in s.sessions
      && (forall r :: r in s.pending ==> r in t.pending && t.pending[r] == s.pending[r])
      && (forall r :: r in t.pending && r !in s.pending ==>
            r == id && t.pending[r] == Pending(session, s.sessions[session], request))
      && (id in t.pending <==>
            match request
            case Use(a, _) => a in cfg.quota && ActionCount(s.sessions[session], a) < cfg.quota[a]
            case DeployWallet(implementation, now) =>
              implementation in cfg.implementations
              && !Deploying(s.sessions[session], implementation, now, cfg.transactionTimeoutMs))
  {
  }

  /** What a completed request leaves behind: a use adds its units to the counts it has read and keeps the
      deploy it has read; a deploy is in progress from then on, for its own implementation and until it times
      out, and keeps the counts it has read. Every other session and request is as before. */
  lemma CompleteExactly(cfg: Config, s: Sys, id: nat, startedAt: int, txHash: int)
    requires Next(cfg, s, Complete(id, startedAt, txHash)).Some?
    ensures var t := Next(cfg, s, Complete(id, startedAt, txHash)).value;
      var p := s.pending[id];
      && t.starts == s.starts && t.now == s.now && t.sessions.Keys == s.sessions.Keys
      && (forall j :: j in s.sessions && j != p.session ==> t.sessions[j] == s.sessions[j])
      && (forall r :: r in t.pending <==> r in s.pending && r != id)
      && (forall r :: r in t.pending ==> t.pending[r] == s.pending[r])
      && p.session in t.sessions
      && t.sessions[p.session].externalAccount == s.sessions[p.session].externalAccount
      && t.sessions[p.session].createdAt == s.sessions[p.session].createdAt
      && match p.request
         case Use(action, count) =>
           && t.deploys == s.deploys && t.uses == s.uses + [Usage(p.session, action, count)]
           && Deploy(t.sessions[p.session]) == Deploy(p.snapshot)
           && forall a :: ActionCount(t.sessions[p.session], a)
                == ActionCount(p.snapshot, a) + if a == action then count else 0
         case DeployWallet(implementation, _) =>
           && t.uses == s.uses
           && t.deploys == s.deploys[p.session := WalletDeploy(startedAt, txHash, implementation)]
           && (forall a :: ActionCount(t.sessions[p.session], a) == ActionCount(p.snapshot, a))
           && forall other, now, timeout :: Deploying(t.sessions[p.session], other, now, timeout)
                <==> other == implementation && now < startedAt + timeout
  {
  }

  /** Step k of the run has let the request through, with the session as it was stored then, and it has not
      ended since. */
  ghost predicate InProgressSince(cfg: Config, steps: seq<Step>, k: int, id: nat, p: Pending) {
    && 0 <= k < |steps| && steps[k] == Arrive(id, p.session, p.request)
    && Exec(cfg, EMPTY, steps[..k]).Some?
    && var s := Exec(cfg, EMPTY, steps[..k]).value;
    && p.session in s.sessions && p.snapshot == s.sessions[p.session] && Admits(cfg, p.snapshot, p.request)
    && forall j :: k < j < |steps| ==> !Ends(steps[j], id)
  }

  predicate Ends(step: Step, id: nat) {
    (step.Complete? || step.Fail?) && step.id == id
  }

  lemma SinceAppend(cfg: Config, steps: seq<Step>, step: Step, k: int, id: nat, p: Pending)
    requires 0 <= k < |steps|
    ensures InProgressSince(cfg, steps + [step], k, id, p) <==>
      InProgressSince(cfg, steps, k, id, p) && !Ends(step, id)
  {
    var more := steps + [step];
    assert more[..k] == steps[..k];
    if InProgressSince(cfg, more, k, id, p) {
      assert forall j :: k < j < |steps| ==> more[j] == steps[j];
      assert more[|steps|] == step;
    }
  }

  lemma SinceNow(cfg: Config, steps: seq<Step>, step: Step, id: nat, p: Pending)
    requires Exec(cfg, EMPTY, steps).Some?
    ensures InProgressSince(cfg, steps + [step], |steps|, id, p) <==>
      && step == Arrive(id, p.session, p.request)
      && var s := Exec(cfg, EMPTY, steps).value;
      && p.session in s.sessions && p.snapshot == s.sessions[p.session] && Admits(cfg, p.snapshot, p.request)
  {
    var more := steps + [step];
    assert more[..|steps|] == steps && more[|steps|] == step;
  }

  lemma PendingStep(cfg: Config, s: Sys, step: Step, id: nat, p: Pending)
    requires Next(cfg, s, step).Some?
    ensures var t := Next(cfg, s, step).value;
      id in t.pending && t.pending[id] == p <==>
        || (id in s.pending && s.pending[id] == p && !Ends(step, id))
        || (step == Arrive(id, p.session, p.request) && p.session in s.sessions
            && p.snapshot == s.sessions[p.session] && Admits(cfg, p.snapshot, p.request))
  {
  }

  /** In every run the requests in progress are exactly those that were let through and have neither completed
      nor failed since, each with the session that was stored when it arrived. */
  lemma {:induction false} PendingExactly(cfg: Config, steps: seq<Step>, id: nat, p: Pending)
    requires Exec(cfg, EMPTY, steps).Some?
    ensures id in Exec(cfg, EMPTY, steps).value.pending && Exec(cfg, EMPTY, steps).value.pending[id] == p
       <==> exists k :: InProgressSince(cfg, steps, k, id, p)
  {
    if steps == [] {
    } else {
      var front, last := steps[..|steps| - 1], steps[|steps| - 1];
      PendingExactly(cfg, front, id, p);
      assert steps == front + [last];
      PendingStep(cfg, Exec(cfg, EMPTY, front).value, last, id, p);
      SinceNow(cfg, front, last, id, p);
      forall k | 0 <= k < |front|
        ensures InProgressSince(cfg, steps, k, id, p) <==> InProgressSince(cfg, front, k, id, p) && !Ends(last, id)
      {
        SinceAppend(cfg, front, last, k, id, p);
      }
    }
  }

  /** While no update is lost, a deploy is let through exactly when its implementation is known and the last
      deploy completed on the session was of another implementation or has timed out. */
  lemma DeploysAdmittedExactly(cfg: Config, steps: seq<Step>, id: nat, session: nat, implementation: string, now: int)
    requires Exec(cfg, EMPTY, steps).Some? && NoLostUpdate(cfg, steps)
    requires Next(cfg, Exec(cfg, EMPTY, steps).value, Arrive(id, session, DeployWallet(implementation, now))).Some?
    ensures var s := Exec(cfg, EMPTY, steps).value;
      id in Next(cfg, s, Arrive(id, session, DeployWallet(implementation, now))).value.pending
      <==> implementation in cfg.implementations
           && (session in s.deploys && s.deploys[session].implementation == implementation ==>
                 now >= s.deploys[session].startedAt + cfg.transactionTimeoutMs)
  {
    LedgerExactExactly(cfg, steps);
    var s := Exec(cfg, EMPTY, steps).value;
    assert RowExact(s.sessions[session], session, s.uses, s.deploys);
  }

  // ----- Serial runs lose no update

  /** A request arrives only when its session has no other request in progress. */
  ghost predicate SerialStep(s: Sys, step: Step) {
    step.Arrive? ==> forall r :: r in s.pending ==> s.pending[r].session != step.session
  }

  ghost predicate SerialRun(cfg: Config, steps: seq<Step>) {
    steps == [] ||
    var front := steps[..|steps| - 1];
    && SerialRun(cfg, front)
    && (Exec(cfg, EMPTY, front).Some? ==> SerialStep(Exec(cfg, EMPTY, front).value, steps[|steps| - 1]))
  }

  ghost predicate PendingOk(s: Sys) {
    && (forall r :: r in s.pending ==>
          s.pending[r].session in s.sessions && s.pending[r].snapshot == s.sessions[s.pending[r].session])
    && (forall r, q :: r in s.pending && q in s.pending && s.pending[r].session == s.pending[q].session ==> r == q)
  }

  lemma StepKeepsPending(cfg: Config, s: Sys, step: Step)
    requires PendingOk(s) && SerialStep(s, step) && Next(cfg, s, step).Some?
    ensures PendingOk(Next(cfg, s, step).value) && !LosesUpdate(s, step)
  {
  }

  /** Requests that do not overlap on a session lose no update, so all of the above holds for them. */
  lemma {:induction false} SerialLosesNothing(cfg: Config, steps: seq<Step>)
    requires SerialRun(cfg, steps) && Exec(cfg, EMPTY, steps).Some?
    ensures PendingOk(Exec(cfg, EMPTY, steps).value) && NoLostUpdate(cfg, steps)
  {
    if steps == [] {
    } else {
      SerialLosesNothing(cfg, steps[..|steps| - 1]);
      StepKeepsPending(cfg, Exec(cfg, EMPTY, steps[..|steps| - 1]).value, steps[|steps| - 1]);
    }
  }

  /** In a serial run each stored count is the sum of the successful uses, the last deploy is never
      clobbered by a counter, and the quota holds. */
  lemma SerialLedgerExact(cfg: Config, steps: seq<Step>, session: nat, a: TrackedAction)
    requires SerialRun(cfg, steps) && Exec(cfg, EMPTY, steps).Some? && a in cfg.quota
    requires session in Exec(cfg, EMPTY, steps).value.sessions
    ensures var s := Exec(cfg, EMPTY, steps).value;
      && RowExact(s.sessions[session], session, s.uses, s.deploys)
      && QuotaLeft(cfg.quota, s.sessions[session], a) + Used(s.uses, session, a) == cfg.quota[a]
      && (LastUse(s.uses, session, a) == Some(1) ==> Used(s.uses, session, a) <= cfg.quota[a])
  {
    SerialLosesNothing(cfg, steps);
    QuotaHolds(cfg, steps, session, a);
  }

  // ----- Overlapping requests lose writes

  const ONE_EACH := Config(map[SubmitMetaTransaction := 1], 1000, {"impl"})

  const OPENED := EMPTY.(sessions := map[0 := NewSession("account", 0)])

  lemma Extend(s: Sys, steps: seq<Step>, step: Step) returns (t: Sys, more: seq<Step>)
    requires Exec(ONE_EACH, EMPTY, steps) == Some(s) && Next(ONE_EACH, s, step).Some?
    ensures t == Next(ONE_EACH, s, step).value && Exec(ONE_EACH, EMPTY, more) == Some(t)
  {
    t := Next(ONE_EACH, s, step).value;
    more := steps + [step];
    assert more[..|steps|] == steps;
  }

  lemma OpenOne() returns (steps: seq<Step>)
    ensures Exec(ONE_EACH, EMPTY, steps) == Some(OPENED)
  {
    var s;
    s, steps := Extend(EMPTY, [], LookUp(0, "account", None));
    assert s == EMPTY.(starts := map[0 := Start("account", None)]);
    s, steps := Extend(s, steps, HandOut(0, 0));
    assert s.starts == map[];
    assert s == OPENED;
  }

  /** One session on which a use (request 0) and a second request (1) arrive before either ends. */
  lemma BothArrive(second: Request) returns (s: Sys, steps: seq<Step>)
    requires second == Use(SubmitMetaTransaction, 1) || second == DeployWallet("impl", 0)
    ensures Exec(ONE_EACH, EMPTY, steps) == Some(s)
    ensures s == OPENED.(pending := map[
      0 := Pending(0, OPENED.sessions[0], Use(SubmitMetaTransaction, 1)),
      1 := Pending(0, OPENED.sessions[0], second)])
  {
    steps := OpenOne();
    s, steps := Extend(OPENED, steps, Arrive(0, 0, Use(SubmitMetaTransaction, 1)));
    assert s.pending == map[0 := Pending(0, OPENED.sessions[0], Use(SubmitMetaTransaction, 1))];
    s, steps := Extend(s, steps, Arrive(1, 0, second));
  }

  /** Two overlapping uses exceed a quota of one, and the stored count still shows one. */
  lemma OverlapExceedsQuota() returns (s: Sys, steps: seq<Step>)
    ensures Exec(ONE_EACH, EMPTY, steps) == Some(s) && 0 in s.sessions
    ensures Used(s.uses, 0, SubmitMetaTransaction) == 2 && ActionCount(s.sessions[0], SubmitMetaTransaction) == 1
  {
    s, steps := BothArrive(Use(SubmitMetaTransaction, 1));
    s, steps := Extend(s, steps, Complete(0, 0, 0));
    s, steps := Extend(s, steps, Complete(1, 0, 0));
    var u := Usage(0, SubmitMetaTransaction, 1);
    assert s.uses == [] + [u] + [u];
    TwoUses(u);
  }

  lemma TwoUses(u: Usage)
    ensures Used([] + [u] + [u], u.session, u.action) == 2 * u.count
  {
    UsedAppend([], u, u.session, u.action);
    UsedAppend([] + [u], u, u.session, u.action);
  }

  /** An overlapping use erases the metadata of a deploy that has just been sent. */
  lemma OverlapErasesDeploy() returns (s: Sys, steps: seq<Step>)
    ensures Exec(ONE_EACH, EMPTY, steps) == Some(s) && 0 in s.sessions
    ensures 0 in s.deploys && Deploy(s.sessions[0]) == None
  {
    s, steps := BothArrive(DeployWallet("impl", 0));
    s, steps := Extend(s, steps, Complete(1, 5, 7));
    s, steps := Extend(s, steps, Complete(0, 0, 0));
  }
}
