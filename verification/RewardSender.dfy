/** `RewardSenderService` on N instances over one database: first sends, watched checks and locked
    retries as a step system. Rows locked by a retry transaction are written by that transaction
    only, and its writes become visible when it commits. */
module RewardSender {
  import opened Common
  import opened RewardEntity

  const RETRY_AGE_MS := 30 * 60 * 1000

  type Hash = int

  datatype Row = Row(invitee: string, state: RewardStatus, rewardTxHash: Option<Hash>, createdAt: int)

  datatype WatchedInvite = WatchedInvite(instance: nat, inviteId: nat, txHash: Hash, markAsDeadLetterIfFailed: bool)

  datatype TxStatus = TxCompleted | TxFailed | TxPending

  /** `getTxStatus`, given the chain's receipts (hash to success flag). */
  function StatusOf(receipts: map<Hash, bool>, h: Hash): TxStatus {
    if h !in receipts then TxPending else if receipts[h] then TxCompleted else TxFailed
  }

  /** The status a retry acts on: a row without a hash counts as failed. */
  function RetryStatus(receipts: map<Hash, bool>, h: Option<Hash>): TxStatus {
    if h.Some? then StatusOf(receipts, h.value) else TxFailed
  }

  /** The row after the update at the end of `sendInviteReward`. */
  function AfterSend(row: Row, isRetry: bool, resp: Option<Hash>): Row {
    match resp
    case Some(h) => row.(state := Submitted, rewardTxHash := Some(h))
    case None => row.(state := if isRetry then DeadLettered else Failed)
  }

  /** The row after a watched transaction got its receipt. */
  function AfterReceipt(row: Row, w: WatchedInvite, success: bool): Row {
    row.(state := if success then Completed else if w.markAsDeadLetterIfFailed then DeadLettered else Failed)
  }

  predicate Retryable(row: Row, now: int) {
    && (row.state == Created || row.state == Submitted || row.state == Failed)
    && row.createdAt <= now - RETRY_AGE_MS
  }

  /** One instance: its in-memory fields and the repository it writes through. */
  class RewardSenderService {
    const instance: nat
    var watchedInvites: set<WatchedInvite>
    var checkingFailedInvites: bool
    var repository: map<nat, Row>

    constructor (instance: nat, repository: map<nat, Row>)
      ensures this.instance == instance && this.repository == repository
      ensures watchedInvites == {} && !checkingFailedInvites
    {
      this.instance := instance;
      this.repository := repository;
      watchedInvites := {};
      checkingFailedInvites := false;
    }

    /** The guard of `checkFailedInvites`: a second run on the same instance is skipped. */
    method TryBeginRetry() returns (run: bool)
      modifies this`checkingFailedInvites
      ensures run <==> !old(checkingFailedInvites)
      ensures checkingFailedInvites
    {
      run := !checkingFailedInvites;
      checkingFailedInvites := true;
    }

    /** The end of `sendInviteReward`, after the relayer answered. A hash that was sent is recorded and
        watched; without one the row fails, for good if this was a retry, and the hash recorded before
        it stays. No other row is touched. */
    method RecordSend(inviteId: nat, isRetry: bool, resp: Option<Hash>)
      requires inviteId in repository
      modifies this`repository, this`watchedInvites
      ensures repository.Keys == old(repository).Keys
        && forall id :: id in repository && id != inviteId ==> repository[id] == old(repository)[id]
      ensures resp.Some? <==> repository[inviteId].state == Submitted
      ensures resp.None? && !isRetry <==> repository[inviteId].state == Failed
      ensures resp.None? && isRetry <==> repository[inviteId].state == DeadLettered
      ensures repository[inviteId].rewardTxHash ==
                if resp.Some? then resp else old(repository)[inviteId].rewardTxHash
      ensures repository[inviteId].invitee == old(repository)[inviteId].invitee
        && repository[inviteId].createdAt == old(repository)[inviteId].createdAt
      ensures forall now :: Retryable(repository[inviteId], now) <==>
                !(isRetry && resp.None?) && repository[inviteId].createdAt <= now - RETRY_AGE_MS
      ensures resp.Some? ==>
        exists w :: w in watchedInvites && w.inviteId == inviteId && Some(w.txHash) == resp
      ensures repository == old(repository)[inviteId := AfterSend(old(repository)[inviteId], isRetry, resp)]
      ensures watchedInvites == old(watchedInvites)
        + if resp.Some? then {WatchedInvite(instance, inviteId, resp.value, isRetry)} else {}
    {
      var row := repository[inviteId];
      match resp
      case None =>
        repository := repository[inviteId := row.(state := if isRetry then DeadLettered else Failed)];
      case Some(h) =>
        repository := repository[inviteId := row.(state := Submitted, rewardTxHash := Some(h))];
        watchedInvites := watchedInvites + {WatchedInvite(instance, inviteId, h, isRetry)};
    }

    /** One item of `checkWatchedInvites`, after its receipt was fetched. */
    method SettleWatched(invite: WatchedInvite, status: TxStatus)
      requires invite.inviteId in repository
      modifies this`repository, this`watchedInvites
      ensures status == TxPending ==> repository == old(repository) && watchedInvites == old(watchedInvites)
      ensures repository.Keys == old(repository).Keys
        && forall id :: id in repository && id != invite.inviteId ==> repository[id] == old(repository)[id]
      ensures status == TxCompleted ==> repository[invite.inviteId].state == Completed
      ensures status == TxFailed ==>
        repository[invite.inviteId].state == if invite.markAsDeadLetterIfFailed then DeadLettered else Failed
      ensures repository[invite.inviteId].rewardTxHash == old(repository)[invite.inviteId].rewardTxHash
      ensures status != TxPending ==>
        && watchedInvites == old(watchedInvites) - {invite}
        && repository == old(repository)[invite.inviteId :=
             AfterReceipt(old(repository)[invite.inviteId], invite, status == TxCompleted)]
    {
      if status == TxCompleted {
        repository := repository[invite.inviteId := repository[invite.inviteId].(state := Completed)];
        watchedInvites := watchedInvites - {invite};
      } else if status == TxFailed {
        var next := if invite.markAsDeadLetterIfFailed then DeadLettered else Failed;
        repository := repository[invite.inviteId := repository[invite.inviteId].(state := next)];
        watchedInvites := watchedInvites - {invite};
      }
    }
  }

  /** Where the first send of a new row stands; `Settled` also when it threw. */
  datatype First = Relaying | GotHash(hash: Hash) | GotErr | Settled

  /** Where a retry transaction stands with one locked row. */
  datatype Task =
    | Looking(seen: Option<Hash>)
    | Confirmed
    | Resending
    | Resent(hash: Hash)
    | ResendErr
    | Over

  /** A row lock with the owner's progress and its uncommitted write. */
  datatype Lock = Lock(owner: nat, task: Task, write: Option<Row>)

  datatype Verdict = Verdict(watch: WatchedInvite, success: bool)

  /** `sent`, `resent` and `firstSends` are history: the hashes ever broadcast for each invite, those
      among them that a retry broadcast, and the invitee of every relayer call that was not a retry. */
  datatype Sys = Sys(
    rows: map<nat, Row>,
    first: map<nat, First>,
    locks: map<nat, Lock>,
    watched: set<WatchedInvite>,
    verdicts: set<Verdict>,
    sent: set<(nat, Hash)>,
    resent: set<(nat, Hash)>,
    firstSends: seq<string>,
    receipts: map<Hash, bool>,
    now: int)

  /** What the relayer call yields. `RelayErr(Some(h))` is an Err although h was broadcast, as the
      timeout race of the relayer proxy can produce. */
  datatype Reply = RelayOk(hash: Hash) | RelayErr(leaked: Option<Hash>) | RelayThrow

  datatype Step =
    | Create(id: nat, invitee: string)
    | FirstRelay(id: nat, reply: Reply)
    | FirstWrite(id: nat, instance: nat)
    | LockRows(instance: nat, ids: set<nat>)
    | Look(id: nat)
    | RetryRelay(id: nat, reply: Reply)
    | RetryWrite(id: nat)
    | Commit(instance: nat)
    | Rollback(instance: nat)
    | Observe(watch: WatchedInvite)
    | WatchWrite(verdict: Verdict)
    | Mine(hash: Hash, success: bool)
    | Clock(ms: nat)

  function Init(now: int): Sys {
    Sys(map[], map[], map[], {}, {}, {}, {}, [], map[], now)
  }

  predicate FreshHash(s: Sys, h: Hash) {
    forall p :: p in s.sent ==> p.1 != h
  }

  /** The hash that reaches the network, if any. */
  function Broadcast(reply: Reply): Option<Hash> {
    match reply
    case RelayOk(h) => Some(h)
    case RelayErr(leaked) => leaked
    case RelayThrow => None
  }

  /** The network gives every broadcast transaction a hash of its own. */
  predicate Plausible(s: Sys, reply: Reply) {
    Broadcast(reply).Some? ==> FreshHash(s, Broadcast(reply).value)
  }

  function Record(past: set<(nat, Hash)>, id: nat, reply: Reply): set<(nat, Hash)> {
    if Broadcast(reply).Some? then past + {(id, Broadcast(reply).value)} else past
  }

  function SetTask(s: Sys, id: nat, task: Task): Sys
    requires id in s.locks
  {
    s.(locks := s.locks[id := s.locks[id].(task := task)])
  }

  function BufferWrite(s: Sys, id: nat, row: Row): Sys
    requires id in s.locks
  {
    s.(locks := s.locks[id := s.locks[id].(task := Over, write := Some(row))])
  }

  function NextFirst(s: Sys, step: Step): Option<Sys>
    requires step.Create? || step.FirstRelay? || step.FirstWrite?
  {
    match step
    case Create(id, invitee) =>
      if id in s.rows then None
      else if exists j :: j in s.rows && s.rows[j].invitee == invitee then Some(s)
      else Some(s.(rows := s.rows[id := Row(invitee, Created, None, s.now)], first := s.first[id := Relaying]))
    case FirstRelay(id, reply) =>
      if id in s.first && id in s.rows && s.first[id].Relaying? && Plausible(s, reply)
      then Some(s.(sent := Record(s.sent, id, reply), firstSends := s.firstSends + [s.rows[id].invitee],
                   first := s.first[id :=
                     match reply
                     case RelayOk(h) => GotHash(h)
                     case RelayErr(_) => GotErr
                     case RelayThrow => Settled]))
      else None
    case FirstWrite(id, instance) =>
      if id in s.first && id in s.rows && id !in s.locks && (s.first[id].GotHash? || s.first[id].GotErr?) then
        var resp := if s.first[id].GotHash? then Some(s.first[id].hash) else None;
        Some(s.(rows := s.rows[id := AfterSend(s.rows[id], false, resp)], first := s.first[id := Settled],
                watched := s.watched + if resp.Some? then {WatchedInvite(instance, id, resp.value, false)} else {}))
      else None
  }

  function NextRetry(s: Sys, step: Step): Option<Sys>
    requires step.Look? || step.RetryRelay? || step.RetryWrite?
  {
    var id := step.id;
    if id !in s.locks || id !in s.rows then None
    else
      var lock := s.locks[id];
      match step
      case Look(_) =>
        if lock.task.Looking? then
          Some(SetTask(s, id, match RetryStatus(s.receipts, lock.task.seen)
                              case TxCompleted => Confirmed
                              case TxFailed => Resending
                              case TxPending => Over))
        else None
      case RetryRelay(_, reply) =>
        if lock.task.Resending? && Plausible(s, reply) then
          Some(SetTask(s.(sent := Record(s.sent, id, reply), resent := Record(s.resent, id, reply)), id,
                       match reply
                       case RelayOk(h) => Resent(h)
                       case RelayErr(_) => ResendErr
                       case RelayThrow => Over))
        else None
      case RetryWrite(_) =>
        match lock.task
        case Confirmed => Some(BufferWrite(s, id, s.rows[id].(state := Completed)))
        case ResendErr => Some(BufferWrite(s, id, AfterSend(s.rows[id], true, None)))
        case Resent(h) =>
          Some(BufferWrite(s.(watched := s.watched + {WatchedInvite(lock.owner, id, h, true)}), id,
                           AfterSend(s.rows[id], true, Some(h))))
        case _ => None
  }

  /** A retry step touches one lock, the histories and the watch list, and no row. */
  lemma RetryShape(s: Sys, step: Step)
    requires step.Look? || step.RetryRelay? || step.RetryWrite?
    requires NextRetry(s, step).Some?
    ensures var t := NextRetry(s, step).value;
      && step.id in s.locks && step.id in s.rows && step.id in t.locks
      && t.locks == s.locks[step.id := t.locks[step.id]]
      && t == s.(locks := t.locks, sent := t.sent, resent := t.resent, watched := t.watched)
  {
  }

  predicate Owns(s: Sys, instance: nat, id: nat) {
    id in s.locks && s.locks[id].owner == instance
  }

  function Unlocked(s: Sys, instance: nat): map<nat, Lock> {
    map id | id in s.locks && s.locks[id].owner != instance :: s.locks[id]
  }

  function Committed(s: Sys, instance: nat): map<nat, Row> {
    map id | id in s.rows ::
      if Owns(s, instance, id) && s.locks[id].write.Some? then s.locks[id].write.value else s.rows[id]
  }

  function NextTxn(s: Sys, step: Step): Option<Sys>
    requires step.LockRows? || step.Commit? || step.Rollback?
  {
    match step
    case LockRows(instance, ids) =>
      if (forall id :: id in s.locks ==> s.locks[id].owner != instance)
         && (forall id :: id in ids ==> id in s.rows && id !in s.locks && Retryable(s.rows[id], s.now))
      then Some(s.(locks := s.locks + map id | id in ids :: Lock(instance, Looking(s.rows[id].rewardTxHash), None)))
      else None
    case Commit(instance) =>
      if forall id :: id in s.locks && Owns(s, instance, id) ==> s.locks[id].task.Over?
      then Some(s.(rows := Committed(s, instance), locks := Unlocked(s, instance)))
      else None
    case Rollback(instance) => Some(s.(locks := Unlocked(s, instance)))
  }

  function NextWatch(s: Sys, step: Step): Option<Sys>
    requires step.Observe? || step.WatchWrite?
  {
    match step
    case Observe(w) =>
      if w in s.watched && w.txHash in s.receipts
      then Some(s.(verdicts := s.verdicts + {Verdict(w, s.receipts[w.txHash])}))
      else None
    case WatchWrite(v) =>
      var id := v.watch.inviteId;
      if v in s.verdicts && id in s.rows && id !in s.locks
      then Some(s.(rows := s.rows[id := AfterReceipt(s.rows[id], v.watch, v.success)],
                   watched := s.watched - {v.watch}, verdicts := s.verdicts - {v}))
      else None
  }

  function Next(s: Sys, step: Step): Option<Sys> {
    match step
    case Create(_, _) => NextFirst(s, step)
    case FirstRelay(_, _) => NextFirst(s, step)
    case FirstWrite(_, _) => NextFirst(s, step)
    case LockRows(_, _) => NextTxn(s, step)
    case Commit(_) => NextTxn(s, step)
    case Rollback(_) => NextTxn(s, step)
    case Look(_) => NextRetry(s, step)
    case RetryRelay(_, _) => NextRetry(s, step)
    case RetryWrite(_) => NextRetry(s, step)
    case Observe(_) => NextWatch(s, step)
    case WatchWrite(_) => NextWatch(s, step)
    case Mine(h, success) =>
      if h !in s.receipts && !FreshHash(s, h) then Some(s.(receipts := s.receipts[h := success])) else None
    case Clock(ms) => Some(s.(now := s.now + ms))
  }

  function Exec(s: Sys, steps: seq<Step>): Option<Sys> {
    if steps == [] then Some(s)
    else
      var before := Exec(s, steps[..|steps| - 1]);
      if before.None? then None else Next(before.value, steps[|steps| - 1])
  }
}
