/** The session quota ledger. A request reads its session once, at authentication, and writes usage
    or deploy metadata back from that snapshot when it succeeds. A start looks up the last session of
    an account and creates a new one when there is none or one of its quotas is used up. Runs are
    arbitrary interleavings of requests and starts. */
module SessionLedger {
  import opened Common
  import opened Hex

  datatype TrackedAction = DistributedBlindedPepper | RequestSubsidisedAttestation | SubmitMetaTransaction

  datatype WalletDeploy = WalletDeploy(startedAt: int, txHash: int, implementation: string)

  datatype Metadata = Metadata(walletDeploy: Option<WalletDeploy>, callCount: map<TrackedAction, nat>)

  /** `meta` is None when the column is null. */
  datatype Session = Session(externalAccount: string, createdAt: int, meta: Option<Metadata>)

  type Quota = map<TrackedAction, nat>

  datatype Config = Config(quota: Quota, transactionTimeoutMs: int, implementations: set<string>)

  function ActionCount(s: Session, a: TrackedAction): nat {
    if s.meta.Some? && a in s.meta.value.callCount then s.meta.value.callCount[a] else 0
  }

  function CallCounts(s: Session): map<TrackedAction, nat> {
    if s.meta.Some? then s.meta.value.callCount else map[]
  }

  function Deploy(s: Session): Option<WalletDeploy> {
    if s.meta.Some? then s.meta.value.walletDeploy else None
  }

  /** The row after `incrementUsage`, which builds the new column from the request's snapshot. */
  function WithUsage(row: Session, snapshot: Session, a: TrackedAction, count: nat): Session {
    row.(meta := Some(Metadata(Deploy(snapshot), CallCounts(snapshot)[a := ActionCount(snapshot, a) + count])))
  }

  /** The row after `deployWallet`, likewise. */
  function WithDeploy(row: Session, snapshot: Session, d: WalletDeploy): Session {
    row.(meta := Some(Metadata(Some(d), CallCounts(snapshot))))
  }

  /** What `create` saves. */
  function NewSession(account: string, now: int): Session {
    Session(NormalizeAddress(account), now, Some(Metadata(None, map[])))
  }

  /** `QuotaGuard.canActivate`. */
  predicate CanActivate(quota: Quota, s: Session, a: TrackedAction)
    requires a in quota
  {
    ActionCount(s, a) < quota[a]
  }

  function QuotaLeft(quota: Quota, s: Session, a: TrackedAction): int
    requires a in quota
  {
    quota[a] - ActionCount(s, a)
  }

  /** `hasQuota`: something is left of every action. */
  predicate HasQuota(quota: Quota, s: Session) {
    forall a :: a in quota ==> QuotaLeft(quota, s, a) > 0
  }

  predicate HasDeployInProgress(s: Session, implementation: string, now: int, timeout: int) {
    && Deploy(s).Some?
    && Deploy(s).value.implementation == implementation
    && now < Deploy(s).value.startedAt + timeout
  }

  /** The result of `findLastForAccount`: a latest session stored under the account as it is spelled,
      without a leading 0x but in its own letter case. */
  predicate Finds(sessions: map<nat, Session>, account: string, found: Option<nat>) {
    match found
    case None => forall i :: i in sessions ==> sessions[i].externalAccount != TrimLeading0x(account)
    case Some(i) =>
      && i in sessions && sessions[i].externalAccount == TrimLeading0x(account)
      && forall j :: j in sessions && sessions[j].externalAccount == TrimLeading0x(account) ==>
           sessions[j].createdAt <= sessions[i].createdAt
  }

  class SessionRepository {
    var sessions: map<nat, Session>

    constructor ()
      ensures sessions == map[]
    {
      sessions := map[];
    }

    /** An unknown session changes nothing. Otherwise the stored session shows the counts of the
        snapshot plus this use, and the snapshot's deploy; in particular the quota left falls by the
        count, and nothing else changes, when the snapshot was still current. */
    method IncrementUsage(id: nat, snapshot: Session, action: TrackedAction, count: nat)
      modifies this
      ensures sessions.Keys == old(sessions).Keys
      ensures forall j :: j in sessions && j != id ==> sessions[j] == old(sessions)[j]
      ensures id in sessions ==>
        && Deploy(sessions[id]) == Deploy(snapshot)
        && forall a :: ActionCount(sessions[id], a) == ActionCount(snapshot, a) + if a == action then count else 0
      ensures id in sessions && old(sessions)[id] == snapshot ==>
        forall quota: Quota, a :: a in quota ==>
          QuotaLeft(quota, sessions[id], a)
            == QuotaLeft(quota, old(sessions)[id], a) - if a == action then count else 0
      ensures id in sessions ==> sessions[id] == WithUsage(old(sessions)[id], snapshot, action, count)
    {
      if id in sessions {
        var before := ActionCount(snapshot, action);
        var counts := CallCounts(snapshot)[action := before + count];
        sessions := sessions[id := sessions[id].(meta := Some(Metadata(Deploy(snapshot), counts)))];
      }
    }

    /** An unknown session changes nothing. Otherwise the deploy is in progress until it times out, and
        the stored counts are those of the snapshot. */
    method RecordDeploy(id: nat, snapshot: Session, deploy: WalletDeploy)
      modifies this
      ensures sessions.Keys == old(sessions).Keys
      ensures forall j :: j in sessions && j != id ==> sessions[j] == old(sessions)[j]
      ensures id in sessions ==>
        && (forall implementation, now, timeout ::
              HasDeployInProgress(sessions[id], implementation, now, timeout)
              <==> implementation == deploy.implementation && now < deploy.startedAt + timeout)
        && forall a :: ActionCount(sessions[id], a) == ActionCount(snapshot, a)
      ensures id in sessions ==> sessions[id] == WithDeploy(old(sessions)[id], snapshot, deploy)
    {
      if id in sessions {
        sessions := sessions[id := sessions[id].(meta := Some(Metadata(Some(deploy), CallCounts(snapshot))))];
      }
    }

    /** `findOrCreateForAccount`, given what its lookup found and an unused id. Whoever starts gets a
        session with something left of every action; at most one session is added and none changes. */
    method FindOrCreate(quota: Quota, account: string, found: Option<nat>, unused: nat, now: int) returns (id: nat)
      requires Finds(sessions, account, found) && unused !in sessions
      modifies this
      ensures id in sessions && Lower(sessions[id].externalAccount) == NormalizeAddress(account)
      ensures (forall a :: a in quota ==> quota[a] > 0) ==> HasQuota(quota, sessions[id])
      ensures forall j :: j in old(sessions) ==> j in sessions && sessions[j] == old(sessions)[j]
      ensures sessions.Keys == old(sessions).Keys + {id}
      ensures id in old(sessions) <==> found == Some(id)
    {
      LowerTwice(TrimLeading0x(account));
      if found.Some? && HasQuota(quota, sessions[found.value]) {
        id := found.value;
      } else {
        id := unused;
        sessions := sessions[unused := NewSession(account, now)];
      }
    }
  }

  lemma LowerTwice(s: string)
    ensures Lower(Lower(s)) == Lower(s)
  {
  }

  datatype Request = Use(action: TrackedAction, count: nat) | DeployWallet(implementation: string, now: int)

  /** A request in progress, with the session it read. */
  datatype Pending = Pending(session: nat, snapshot: Session, request: Request)

  datatype Found = Found(id: nat, snapshot: Session)

  /** A start between its lookup and its end. */
  datatype Start = Start(account: string, found: Option<Found>)

  /** A completed use: the history the ledger is compared with. */
  datatype Usage = Usage(session: nat, action: TrackedAction, count: nat)

  /** `uses` and `deploys` are history: completed uses, and the last completed deploy per session. */
  datatype Sys = Sys(
    sessions: map<nat, Session>,
    starts: map<nat, Start>,
    pending: map<nat, Pending>,
    uses: seq<Usage>,
    deploys: map<nat, WalletDeploy>,
    now: int)

  datatype Step =
    | LookUp(start: nat, account: string, found: Option<nat>)
    | HandOut(start: nat, unused: nat)
    | Arrive(id: nat, session: nat, request: Request)
    | Fail(id: nat)
    | Complete(id: nat, startedAt: int, txHash: int)
    | Clock(ms: nat)

  /** Whether the request goes to the relayer. A guarded use needs quota; a deploy needs a known
      implementation and no deploy of it in progress. */
  predicate Admits(cfg: Config, s: Session, r: Request) {
    match r
    case Use(a, _) => a in cfg.quota && CanActivate(cfg.quota, s, a)
    case DeployWallet(implementation, now) =>
      implementation in cfg.implementations && !HasDeployInProgress(s, implementation, now, cfg.transactionTimeoutMs)
  }

  /** The start reuses the session it found. */
  predicate Reuses(cfg: Config, start: Start) {
    start.found.Some? && HasQuota(cfg.quota, start.found.value.snapshot)
  }

  function Next(cfg: Config, s: Sys, step: Step): Option<Sys> {
    match step
    case LookUp(start, account, found) =>
      if start in s.starts || !Finds(s.sessions, account, found) then None
      else
        var row := if found.Some? then Some(Found(found.value, s.sessions[found.value])) else None;
        Some(s.(starts := s.starts[start := Start(account, row)]))
    case HandOut(start, unused) =>
      if start !in s.starts then None
      else if Reuses(cfg, s.starts[start]) then Some(s.(starts := s.starts - {start}))
      else if unused in s.sessions then None
      else Some(s.(starts := s.starts - {start},
                   sessions := s.sessions[unused := NewSession(s.starts[start].account, s.now)]))
    case Arrive(id, session, request) =>
      if id in s.pending || session !in s.sessions then None
      else if Admits(cfg, s.sessions[session], request)
      then Some(s.(pending := s.pending[id := Pending(session, s.sessions[session], request)]))
      else Some(s)
    case Fail(id) => if id in s.pending then Some(s.(pending := s.pending - {id})) else None
    case Complete(id, startedAt, txHash) =>
      if id in s.pending && s.pending[id].session in s.sessions
      then Some(Finish(s, id, s.pending[id], startedAt, txHash))
      else None
    case Clock(ms) => Some(s.(now := s.now + ms))
  }

  function Finish(s: Sys, id: nat, p: Pending, startedAt: int, txHash: int): Sys
    requires p.session in s.sessions
  {
    var row := s.sessions[p.session];
    match p.request
    case Use(a, count) =>
      s.(sessions := s.sessions[p.session := WithUsage(row, p.snapshot, a, count)],
         pending := s.pending - {id},
         uses := s.uses + [Usage(p.session, a, count)])
    case DeployWallet(implementation, _) =>
      var d := WalletDeploy(startedAt, txHash, implementation);
      s.(sessions := s.sessions[p.session := WithDeploy(row, p.snapshot, d)],
         pending := s.pending - {id},
         deploys := s.deploys[p.session := d])
  }

  function Exec(cfg: Config, s: Sys, steps: seq<Step>): Option<Sys> {
    if steps == [] then Some(s)
    else
      var before := Exec(cfg, s, steps[..|steps| - 1]);
      if before.None? then None else Next(cfg, before.value, steps[|steps| - 1])
  }

  const EMPTY := Sys(map[], map[], map[], [], map[], 0)

  /** The units of an action that requests on a session have successfully used. */
  function Used(uses: seq<Usage>, session: nat, a: TrackedAction): nat {
    if uses == [] then 0
    else
      var last := uses[|uses| - 1];
      Used(uses[..|uses| - 1], session, a) + if last.session == session && last.action == a then last.count else 0
  }

  lemma UsedAppend(uses: seq<Usage>, u: Usage, session: nat, a: TrackedAction)
    ensures Used(uses + [u], session, a)
         == Used(uses, session, a) + if u.session == session && u.action == a then u.count else 0
  {
  }

  /** The size of the last completed use of an action on a session. */
  function LastUse(uses: seq<Usage>, session: nat, a: TrackedAction): Option<nat> {
    if uses == [] then None
    else
      var last := uses[|uses| - 1];
      if last.session == session && last.action == a then Some(last.count)
      else LastUse(uses[..|uses| - 1], session, a)
  }

  function RecordedDeploy(deploys: map<nat, WalletDeploy>, session: nat): Option<WalletDeploy> {
    if session in deploys then Some(deploys[session]) else None
  }

  lemma {:induction false} UnusedSession(uses: seq<Usage>, session: nat, a: TrackedAction)
    requires forall i :: 0 <= i < |uses| ==> uses[i].session != session
    ensures Used(uses, session, a) == 0 && LastUse(uses, session, a) == None
  {
    if uses == [] {
    } else {
      UnusedSession(uses[..|uses| - 1], session, a);
    }
  }
}
