/** Delivery of chain events by N service instances that share one stored cursor
    (`runUsingLastNotifiedBlock` around `fetchAndProcessEvents`). Every database call, every RPC
    call and every handler call is a step of its own, so instances interleave anywhere, read
    stale cursors, fail, and race on the conditional update. */
module EventDelivery {
  import opened Common
  import opened EventWindows

  /** The one `notified_block` row of a key, updated in place by the database. */
  class CursorTable {
    var blockNumber: Option<int>

    constructor ()
      ensures blockNumber == None
    {
      blockNumber := None;
    }

    /** INSERT under the unique constraint on the key. */
    method Insert(block: int) returns (ok: bool)
      modifies this
      ensures ok <==> old(blockNumber).None?
      ensures blockNumber == if ok then Some(block) else old(blockNumber)
      ensures blockNumber == InsertCursor(old(blockNumber), block)
    {
      ok := blockNumber.None?;
      if ok {
        blockNumber := Some(block);
      }
    }

    /** UPDATE ... WHERE blockNumber < block. */
    method RaiseTo(block: int)
      modifies this
      ensures old(blockNumber).Some? ==> blockNumber == Some(Max(old(blockNumber).value, block))
      ensures old(blockNumber).None? ==> blockNumber.None?
      ensures blockNumber == RaiseCursor(old(blockNumber), block)
    {
      if blockNumber.Some? && blockNumber.value < block {
        blockNumber := Some(block);
      }
    }
  }

  function InsertCursor(cursor: Option<int>, block: int): Option<int> {
    if cursor.None? then Some(block) else cursor
  }

  function RaiseCursor(cursor: Option<int>, block: int): Option<int> {
    if cursor.Some? && cursor.value < block then Some(block) else cursor
  }

  /** Where one instance's poll stands. */
  datatype Phase =
    | Idle
    | Absent
    | Fresh(block: int)
    | Ready(from: int)
    | Scanning(from: int, last: int, next: nat)
    | Raising(to: int)

  /** How a handler call ends. `Swallowed`: the save failed for another reason than a duplicate
      key, which the handler logs and ignores. */
  datatype Outcome = Saved | Swallowed | Threw

  /** `handled` and `stored` are history: the events whose handler ended without an exception, and those
      among them whose save went through or found the row already there. */
  datatype Sys = Sys(
    cursor: Option<int>,
    start: int,
    head: int,
    phases: map<nat, Phase>,
    handled: seq<nat>,
    stored: seq<nat>,
    rows: seq<Key>)

  datatype Act =
    | FindRow
    | PickStart(block: int)
    | InsertRow
    | ReadHead(last: int)
    | Handle(outcome: Outcome)
    | Finish
    | Raise
    | Fail

  datatype Step = Instance(id: nat, act: Act) | NewBlocks(n: nat)

  function Init(head: int): Sys {
    Sys(None, 0, head, map[], [], [], [])
  }

  function PhaseOf(s: Sys, id: nat): Phase {
    if id in s.phases then s.phases[id] else Idle
  }

  function Goto(s: Sys, id: nat, phase: Phase): Sys {
    s.(phases := s.phases[id := phase])
  }

  /** The handlers store one row per key; a duplicate key is an expected error. */
  function SaveRow(rows: seq<Key>, key: Key): seq<Key> {
    if key in rows then rows else rows + [key]
  }

  lemma DeliveryWithin(chain: seq<Event>, from: int, last: int)
    ensures Within(chain, Delivery(chain, from, last))
  {
    DeliveryExact(chain, from, last);
    var d := Delivery(chain, from, last);
    assert forall i :: 0 <= i < |d| ==> d[i] in d;
  }

  /** The block that `fetchAndProcessEvents` returns when no handler threw. */
  function ScanResult(chain: seq<Event>, from: int, last: int): int {
    DeliveryWithin(chain, from, last);
    MaxBlock(chain, Delivery(chain, from, last), from)
  }

  function NextHandle(chain: seq<Event>, s: Sys, id: nat, from: int, last: int, next: nat, outcome: Outcome): Sys
    requires next < |Delivery(chain, from, last)|
  {
    DeliveryWithin(chain, from, last);
    var k := Delivery(chain, from, last)[next];
    match outcome
    case Threw => Goto(s, id, Idle)
    case Swallowed => Goto(s, id, Scanning(from, last, next + 1)).(handled := s.handled + [k])
    case Saved =>
      Goto(s, id, Scanning(from, last, next + 1)).(
        handled := s.handled + [k], stored := s.stored + [k], rows := SaveRow(s.rows, chain[k].key))
  }

  function NextInstance(chain: seq<Event>, s: Sys, id: nat, act: Act): Option<Sys> {
    match (act, PhaseOf(s, id))
    case (FindRow, Idle) =>
      Some(Goto(s, id, if s.cursor.Some? then Ready(s.cursor.value + 1) else Absent))
    case (PickStart(block), Absent) =>
      if 0 <= block <= s.head then Some(Goto(s, id, Fresh(block))) else None
    case (InsertRow, Fresh(block)) =>
      Some(if s.cursor.None?
           then Goto(s, id, Ready(block + 1)).(cursor := InsertCursor(s.cursor, block), start := block)
           else Goto(s, id, Idle))
    case (ReadHead(last), Ready(from)) =>
      if last <= s.head then Some(Goto(s, id, Scanning(from, last, 0))) else None
    case (Handle(outcome), Scanning(from, last, next)) =>
      if next < |Delivery(chain, from, last)|
      then Some(NextHandle(chain, s, id, from, last, next, outcome))
      else None
    case (Finish, Scanning(from, last, next)) =>
      if next == |Delivery(chain, from, last)| then
        var lastBlock := ScanResult(chain, from, last);
        Some(Goto(s, id, if lastBlock > from then Raising(lastBlock) else Idle))
      else None
    case (Raise, Raising(to)) =>
      Some(Goto(s, id, Idle).(cursor := RaiseCursor(s.cursor, to)))
    case (Fail, _) => Some(Goto(s, id, Idle))
    case _ => None
  }

  function Next(chain: seq<Event>, s: Sys, step: Step): Option<Sys> {
    match step
    case Instance(id, act) => NextInstance(chain, s, id, act)
    case NewBlocks(n) => Some(s.(head := s.head + n))
  }

  function Exec(chain: seq<Event>, s: Sys, steps: seq<Step>): Option<Sys> {
    if steps == [] then Some(s)
    else
      var before := Exec(chain, s, steps[..|steps| - 1]);
      if before.None? then None else Next(chain, before.value, steps[|steps| - 1])
  }

  // ----- At-least-once delivery

  /** Every event after the starting block and at or below `to` has been handled. */
  ghost predicate HandledUpTo(chain: seq<Event>, s: Sys, to: int) {
    forall k :: 0 <= k < |chain| && s.start < chain[k].block <= to ==> k in s.handled
  }

  ghost predicate PhaseOk(chain: seq<Event>, s: Sys, phase: Phase) {
    match phase
    case Ready(from) => s.cursor.Some? && s.start < from && HandledUpTo(chain, s, from - 1)
    case Scanning(from, last, next) =>
      && s.cursor.Some? && s.start < from && HandledUpTo(chain, s, from - 1)
      && next <= |Delivery(chain, from, last)|
      && (forall j :: 0 <= j < next ==> Delivery(chain, from, last)[j] in s.handled)
    case Raising(to) => s.cursor.Some? && HandledUpTo(chain, s, to)
    case _ => true
  }

  ghost predicate Inv(chain: seq<Event>, s: Sys) {
    && (s.cursor.Some? ==> s.start <= s.cursor.value && HandledUpTo(chain, s, s.cursor.value))
    && (forall id :: id in s.phases ==> PhaseOk(chain, s, s.phases[id]))
  }

  /** A completed scan has handled everything up to the block it returns. */
  lemma ScanCovers(chain: seq<Event>, s: Sys, from: int, last: int)
    requires PhaseOk(chain, s, Scanning(from, last, |Delivery(chain, from, last)|))
    requires ScanResult(chain, from, last) > from
    ensures HandledUpTo(chain, s, ScanResult(chain, from, last))
  {
    var d := Delivery(chain, from, last);
    DeliveryWithin(chain, from, last);
    DeliveryExact(chain, from, last);
    MaxBlockIsMax(chain, d, from);
    forall k | 0 <= k < |chain| && s.start < chain[k].block <= ScanResult(chain, from, last)
      ensures k in s.handled
    {
      if from <= chain[k].block {
        assert k in d;
        var j :| 0 <= j < |d| && d[j] == k;
      }
    }
  }

  /** Nothing that was established is lost by handling more or by raising the cursor. */
  lemma PhaseFrame(chain: seq<Event>, s: Sys, t: Sys, phase: Phase)
    requires PhaseOk(chain, s, phase)
    requires s.cursor.Some? ==> t.cursor.Some? && t.start == s.start
    requires forall k :: k in s.handled ==> k in t.handled
    ensures PhaseOk(chain, t, phase)
  {
  }

  lemma InstanceKeepsInv(chain: seq<Event>, s: Sys, id: nat, act: Act)
    requires Inv(chain, s) && NextInstance(chain, s, id, act).Some?
    ensures Inv(chain, NextInstance(chain, s, id, act).value)
  {
    var t := NextInstance(chain, s, id, act).value;
    assert forall k :: k in s.handled ==> k in t.handled;
    forall j | j in t.phases && j != id
      ensures PhaseOk(chain, t, t.phases[j])
    {
      PhaseFrame(chain, s, t, s.phases[j]);
    }
    InstanceKeepsOwnPhase(chain, s, id, act);
  }

  lemma InstanceKeepsOwnPhase(chain: seq<Event>, s: Sys, id: nat, act: Act)
    requires Inv(chain, s) && NextInstance(chain, s, id, act).Some?
    ensures var t := NextInstance(chain, s, id, act).value;
      && id in t.phases && PhaseOk(chain, t, t.phases[id])
      && (t.cursor.Some? ==> t.start <= t.cursor.value && HandledUpTo(chain, t, t.cursor.value))
  {
    var t := NextInstance(chain, s, id, act).value;
    assert PhaseOk(chain, s, PhaseOf(s, id));
    assert forall k :: k in s.handled ==> k in t.handled;
    if act.Finish? {
      var Scanning(from, last, next) := PhaseOf(s, id);
      if ScanResult(chain, from, last) > from {
        ScanCovers(chain, s, from, last);
      }
    }
  }

  lemma {:induction false} RunKeepsInv(chain: seq<Event>, s: Sys, steps: seq<Step>)
    requires Inv(chain, s) && Exec(chain, s, steps).Some?
    ensures Inv(chain, Exec(chain, s, steps).value)
  {
    if steps == [] {
    } else {
      var front, last := steps[..|steps| - 1], steps[|steps| - 1];
      RunKeepsInv(chain, s, front);
      var m := Exec(chain, s, front).value;
      match last
      case Instance(id, act) => InstanceKeepsInv(chain, m, id, act);
      case NewBlocks(n) =>
        var t := Next(chain, m, last).value;
        forall id | id in t.phases
          ensures PhaseOk(chain, t, t.phases[id])
        {
          PhaseFrame(chain, m, t, m.phases[id]);
        }
    }
  }

  /** At-least-once delivery: in every reachable state, every event after the starting block and at
      or below the stored cursor has been handled by some instance. */
  lemma AtLeastOnce(chain: seq<Event>, head: int, steps: seq<Step>, k: nat)
    requires Exec(chain, Init(head), steps).Some? && k < |chain|
    requires var s := Exec(chain, Init(head), steps).value;
      s.cursor.Some? && s.start < chain[k].block <= s.cursor.value
    ensures k in Exec(chain, Init(head), steps).value.handled
  {
    RunKeepsInv(chain, Init(head), steps);
  }

  /** The stored cursor never disappears and never decreases, whoever writes it and however stale
      the value it computed. */
  lemma {:induction false} CursorNeverDecreases(chain: seq<Event>, s: Sys, steps: seq<Step>)
    requires s.cursor.Some? && Exec(chain, s, steps).Some?
    ensures var t := Exec(chain, s, steps).value;
      t.cursor.Some? && s.cursor.value <= t.cursor.value && t.start == s.start
  {
    if steps == [] {
    } else {
      CursorNeverDecreases(chain, s, steps[..|steps| - 1]);
    }
  }

  // ----- How far a poll moves the cursor

  /** The largest block among the events, if it lies beyond `from`. */
  ghost predicate IsLargestBeyond(chain: seq<Event>, ids: seq<nat>, from: int, block: int) {
    && Within(chain, ids) && block > from
    && (forall i :: 0 <= i < |ids| ==> chain[ids[i]].block <= block)
    && (exists i :: 0 <= i < |ids| && chain[ids[i]].block == block)
  }

  ghost predicate NoneBeyond(chain: seq<Event>, ids: seq<nat>, from: int) {
    Within(chain, ids) && forall i :: 0 <= i < |ids| ==> chain[ids[i]].block <= from
  }

  lemma ScanResultIs(chain: seq<Event>, from: int, last: int)
    ensures var d, result := Delivery(chain, from, last), ScanResult(chain, from, last);
      if result > from then IsLargestBeyond(chain, d, from, result) else NoneBeyond(chain, d, from)
  {
    var d := Delivery(chain, from, last);
    DeliveryWithin(chain, from, last);
    MaxBlockIsMax(chain, d, from);
    assert forall i :: 0 <= i < |d| ==> d[i] in d;
    if ScanResult(chain, from, last) > from {
      var k :| k in d && chain[k].block == ScanResult(chain, from, last);
      var i :| 0 <= i < |d| && d[i] == k;
      assert chain[d[i]].block == ScanResult(chain, from, last);
    }
  }

  /** In every run, a scan that has handed out its whole delivery goes on to raise the cursor exactly when
      an event lies beyond its first block, and then to the largest block delivered; whenever that raise
      comes, whatever other instances have written meanwhile, the cursor becomes the larger of both. */
  lemma CursorMovesExactly(chain: seq<Event>, head: int, steps: seq<Step>, id: nat)
    requires Exec(chain, Init(head), steps).Some?
    ensures var s := Exec(chain, Init(head), steps).value;
      var finish := Next(chain, s, Instance(id, Finish));
      finish.Some? ==>
        && PhaseOf(s, id).Scanning? && finish.value.cursor == s.cursor
        && var d, from := Delivery(chain, PhaseOf(s, id).from, PhaseOf(s, id).last), PhaseOf(s, id).from;
           if PhaseOf(finish.value, id).Raising? then IsLargestBeyond(chain, d, from, PhaseOf(finish.value, id).to)
           else PhaseOf(finish.value, id).Idle? && NoneBeyond(chain, d, from)
    ensures var s := Exec(chain, Init(head), steps).value;
      PhaseOf(s, id).Raising? ==>
        && s.cursor.Some? && Next(chain, s, Instance(id, Raise)).Some?
        && Next(chain, s, Instance(id, Raise)).value.cursor == Some(Max(s.cursor.value, PhaseOf(s, id).to))
  {
    RunKeepsInv(chain, Init(head), steps);
    var s := Exec(chain, Init(head), steps).value;
    if PhaseOf(s, id).Scanning? {
      ScanResultIs(chain, PhaseOf(s, id).from, PhaseOf(s, id).last);
    }
    if PhaseOf(s, id).Raising? {
      assert PhaseOk(chain, s, s.phases[id]);
    }
  }

  // ----- Where a poll starts

  function Prefix(chain: seq<Event>, head: int, steps: seq<Step>, k: nat): Option<Sys>
    requires k <= |steps|
  {
    Exec(chain, Init(head), steps[..k])
  }

  /** Step k of the run is where the instance's poll has read the stored cursor, one before `from`, or has
      inserted it there, no row having been present; since then it has only scanned. */
  ghost predicate PollOrigin(chain: seq<Event>, head: int, steps: seq<Step>, k: int, id: nat, from: int) {
    && 0 <= k < |steps|
    && Prefix(chain, head, steps, k).Some? && Prefix(chain, head, steps, k + 1).Some?
    && Prefix(chain, head, steps, k + 1).value.cursor == Some(from - 1)
    && (steps[k] == Instance(id, FindRow)
        || (steps[k] == Instance(id, InsertRow) && Prefix(chain, head, steps, k).value.cursor.None?))
    && forall j :: k < j < |steps| ==> OnlyScans(steps[j], id)
  }

  lemma OriginLasts(chain: seq<Event>, head: int, steps: seq<Step>, step: Step, k: int, id: nat, from: int)
    requires PollOrigin(chain, head, steps, k, id, from)
    requires OnlyScans(step, id)
    ensures PollOrigin(chain, head, steps + [step], k, id, from)
  {
    var more := steps + [step];
    assert more[..k] == steps[..k] && more[..k + 1] == steps[..k + 1];
  }

  lemma OriginNow(chain: seq<Event>, head: int, steps: seq<Step>, act: Act, id: nat, from: int)
    requires Exec(chain, Init(head), steps + [Instance(id, act)]).Some? && Exec(chain, Init(head), steps).Some?
    requires Exec(chain, Init(head), steps + [Instance(id, act)]).value.cursor == Some(from - 1)
    requires act.FindRow? || (act.InsertRow? && Exec(chain, Init(head), steps).value.cursor.None?)
    ensures PollOrigin(chain, head, steps + [Instance(id, act)], |steps|, id, from)
  {
    var more := steps + [Instance(id, act)];
    assert more[..|steps|] == steps && more[..|steps| + 1] == more;
  }

  predicate StartsAt(phase: Phase, from: int) {
    (phase.Ready? || phase.Scanning?) && phase.from == from
  }

  /** The step is none of the instance's, or one of its scan. */
  predicate OnlyScans(step: Step, id: nat) {
    step.Instance? && step.id == id ==> step.act.ReadHead? || step.act.Handle?
  }

  lemma StartsStep(chain: seq<Event>, s: Sys, step: Step, id: nat, from: int)
    requires Next(chain, s, step).Some? && StartsAt(PhaseOf(Next(chain, s, step).value, id), from)
    ensures if OnlyScans(step, id) then StartsAt(PhaseOf(s, id), from)
            else Next(chain, s, step).value.cursor == Some(from - 1)
                 && (step.act.FindRow? || (step.act.InsertRow? && s.cursor.None?))
  {
  }

  /** In every run, an instance scans from the block after the cursor that this poll has read or that it has
      been the one to insert; one that loses the race to insert does not scan at all. */
  lemma {:induction false} PollsStartAtCursor(chain: seq<Event>, head: int, steps: seq<Step>, id: nat, from: int)
    requires Exec(chain, Init(head), steps).Some?
    requires StartsAt(PhaseOf(Exec(chain, Init(head), steps).value, id), from)
    ensures exists k :: PollOrigin(chain, head, steps, k, id, from)
  {
    var front, last := steps[..|steps| - 1], steps[|steps| - 1];
    var s := Exec(chain, Init(head), front).value;
    assert steps == front + [last];
    StartsStep(chain, s, last, id, from);
    if OnlyScans(last, id) {
      PollsStartAtCursor(chain, head, front, id, from);
      var k :| PollOrigin(chain, head, front, k, id, from);
      OriginLasts(chain, head, front, last, k, id, from);
    } else {
      OriginNow(chain, head, front, last.act, id, from);
    }
  }

  // ----- Rows under replay

  /** The rows are exactly those of the events whose save went through, without duplicates. */
  ghost predicate RowsInv(chain: seq<Event>, s: Sys) {
    && NoDuplicates(s.rows)
    && Within(chain, s.stored)
    && (forall key :: key in s.rows <==> exists i :: 0 <= i < |s.stored| && chain[s.stored[i]].key == key)
  }

  lemma SaveKeepsRows(rows: seq<Key>, key: Key)
    requires NoDuplicates(rows)
    ensures NoDuplicates(SaveRow(rows, key))
    ensures forall k :: k in SaveRow(rows, key) <==> k in rows || k == key
  {
  }

  lemma StoreKeepsRows(chain: seq<Event>, s: Sys, t: Sys, k: nat)
    requires RowsInv(chain, s) && k < |chain|
    requires t.stored == s.stored + [k] && t.rows == SaveRow(s.rows, chain[k].key)
    ensures RowsInv(chain, t)
  {
    SaveKeepsRows(s.rows, chain[k].key);
    assert t.stored[|s.stored|] == k && t.stored[..|s.stored|] == s.stored;
    forall key
      ensures key in t.rows <==> exists i :: 0 <= i < |t.stored| && chain[t.stored[i]].key == key
    {
      if i :| 0 <= i < |s.stored| && chain[s.stored[i]].key == key {
        assert t.stored[i] == s.stored[i];
      }
    }
  }

  lemma StepKeepsRows(chain: seq<Event>, s: Sys, step: Step)
    requires RowsInv(chain, s) && Next(chain, s, step).Some?
    ensures RowsInv(chain, Next(chain, s, step).value)
  {
    if step.Instance? && step.act.Handle? {
      var Scanning(from, last, next) := PhaseOf(s, step.id);
      DeliveryWithin(chain, from, last);
      if step.act.outcome.Saved? {
        StoreKeepsRows(chain, s, Next(chain, s, step).value, Delivery(chain, from, last)[next]);
      }
    }
  }

  lemma {:induction false} RunKeepsRows(chain: seq<Event>, s: Sys, steps: seq<Step>)
    requires RowsInv(chain, s) && Exec(chain, s, steps).Some?
    ensures RowsInv(chain, Exec(chain, s, steps).value)
  {
    if steps == [] {
    } else {
      RunKeepsRows(chain, s, steps[..|steps| - 1]);
      StepKeepsRows(chain, Exec(chain, s, steps[..|steps| - 1]).value, steps[|steps| - 1]);
    }
  }

  function CountKey(rows: seq<Key>, key: Key): nat {
    if rows == [] then 0 else CountKey(rows[..|rows| - 1], key) + if rows[|rows| - 1] == key then 1 else 0
  }

  lemma {:induction false} DistinctCount(rows: seq<Key>, key: Key)
    requires NoDuplicates(rows)
    ensures CountKey(rows, key) == if key in rows then 1 else 0
  {
    if rows == [] {
    } else {
      var front, last := rows[..|rows| - 1], rows[|rows| - 1];
      DistinctCount(front, key);
      assert rows == front + [last];
    }
  }

  /** The save of some event with this key went through. */
  ghost predicate StoredKey(chain: seq<Event>, s: Sys, key: Key) {
    exists i :: 0 <= i < |s.stored| && s.stored[i] < |chain| && chain[s.stored[i]].key == key
  }

  /** Replayed delivery yields exactly-once rows, in every run: whatever is replayed, by whom, and
      whatever saves fail, a key has one row when some handling of its events was stored, and none
      otherwise. */
  lemma RowsExactly(chain: seq<Event>, head: int, steps: seq<Step>, key: Key)
    requires Exec(chain, Init(head), steps).Some?
    ensures var s := Exec(chain, Init(head), steps).value;
      CountKey(s.rows, key) == if StoredKey(chain, s, key) then 1 else 0
  {
    RunKeepsRows(chain, Init(head), steps);
    DistinctCount(Exec(chain, Init(head), steps).value.rows, key);
  }

  predicate NoSwallow(steps: seq<Step>) {
    forall i :: 0 <= i < |steps| ==> steps[i].Instance? ==> steps[i].act != Handle(Swallowed)
  }

  lemma {:induction false} NoSwallowStoresAll(chain: seq<Event>, s: Sys, steps: seq<Step>)
    requires s.stored == s.handled && Exec(chain, s, steps).Some? && NoSwallow(steps)
    ensures Exec(chain, s, steps).value.stored == Exec(chain, s, steps).value.handled
  {
    if steps == [] {
    } else {
      NoSwallowStoresAll(chain, s, steps[..|steps| - 1]);
    }
  }

  /** An event after the starting block and at or below the cursor has exactly one row if and only if some
      handling of its key was stored; it always has one when saves fail only as duplicates. */
  lemma ExactlyOneRow(chain: seq<Event>, head: int, steps: seq<Step>, k: nat)
    requires Exec(chain, Init(head), steps).Some? && k < |chain|
    requires var s := Exec(chain, Init(head), steps).value;
      s.cursor.Some? && s.start < chain[k].block <= s.cursor.value
    ensures var s := Exec(chain, Init(head), steps).value;
      && k in s.handled
      && (CountKey(s.rows, chain[k].key) == 1 <==> StoredKey(chain, s, chain[k].key))
      && (NoSwallow(steps) ==> CountKey(s.rows, chain[k].key) == 1)
  {
    AtLeastOnce(chain, head, steps, k);
    RowsExactly(chain, head, steps, chain[k].key);
    if NoSwallow(steps) {
      NoSwallowStoresAll(chain, Init(head), steps);
      var s := Exec(chain, Init(head), steps).value;
      var i :| 0 <= i < |s.handled| && s.handled[i] == k;
      assert s.stored[i] == k;
    }
  }

  const TWO_EVENTS := [Event(1, ("issuer", "tx1")), Event(2, ("issuer", "tx2"))]

  ghost predicate Reachable(s: Sys) {
    exists steps :: Exec(TWO_EVENTS, Init(3), steps) == Some(s)
  }

  lemma Extend(s: Sys, act: Act) returns (t: Sys)
    requires Reachable(s) && NextInstance(TWO_EVENTS, s, 0, act).Some?
    ensures t == NextInstance(TWO_EVENTS, s, 0, act).value && Reachable(t)
  {
    t := NextInstance(TWO_EVENTS, s, 0, act).value;
    var steps :| Exec(TWO_EVENTS, Init(3), steps) == Some(s);
    var more := steps + [Instance(0, act)];
    assert more[..|steps|] == steps;
    assert Exec(TWO_EVENTS, Init(3), more) == Some(t);
  }

  lemma TwoEventsDelivery()
    ensures Delivery(TWO_EVENTS, 1, 3) == [0, 1] && ScanResult(TWO_EVENTS, 1, 3) == 2
  {
    var w := WindowAt(1, 3);
    assert Query(TWO_EVENTS, w, 1) == Query(TWO_EVENTS, w, 0) + [0];
    assert Query(TWO_EVENTS, w, 2) == Query(TWO_EVENTS, w, 1) + [1];
    assert Delivery(TWO_EVENTS, 1 + EVENTS_BATCH_SIZE + 1, 3) == [];
    assert Delivery(TWO_EVENTS, 1, 3) == [0, 1];
    assert [0, 1][..1] == [0] && [0][..0] == [];
    assert MaxBlock(TWO_EVENTS, [0], 1) == 1;
  }

  /** The first poll has read the head and is about to handle both events. */
  const STARTED := Sys(Some(0), 0, 3, map[0 := Scanning(1, 3, 0)], [], [], [])

  lemma ReachStarted()
    ensures Reachable(STARTED)
  {
    assert Exec(TWO_EVENTS, Init(3), []) == Some(Init(3));
    var a := Extend(Init(3), FindRow);
    var b := Extend(a, PickStart(0));
    assert b == Init(3).(phases := map[0 := Fresh(0)]);
    var c := Extend(b, InsertRow);
    assert c == Sys(Some(0), 0, 3, map[0 := Ready(1)], [], [], []);
    var d := Extend(c, ReadHead(3));
    assert d == STARTED;
  }

  /** Both events have been handled, but only the second one was stored. */
  const HALF_STORED := STARTED.(
    phases := map[0 := Scanning(1, 3, 2)], handled := [0, 1], stored := [1], rows := [TWO_EVENTS[1].key])

  lemma ReachHalfStored()
    ensures Reachable(HALF_STORED)
  {
    TwoEventsDelivery();
    ReachStarted();
    var a := Extend(STARTED, Handle(Swallowed));
    assert a == STARTED.(phases := map[0 := Scanning(1, 3, 1)], handled := [0]);
    var b := Extend(a, Handle(Saved));
    assert b == HALF_STORED;
  }

  /** A save error that the handler swallows loses the row for good: the cursor moves past the
      event although its key is not stored. */
  lemma SwallowedSaveLosesRow() returns (s: Sys)
    ensures Reachable(s) && s.cursor == Some(2) && s.start == 0
    ensures TWO_EVENTS[0].key !in s.rows && !StoredKey(TWO_EVENTS, s, TWO_EVENTS[0].key)
  {
    TwoEventsDelivery();
    ReachHalfStored();
    var a := Extend(HALF_STORED, Finish);
    assert a == HALF_STORED.(phases := map[0 := Raising(2)]);
    s := Extend(a, Raise);
  }

  // ----- The exact replay set of a single instance

  /** Steps of one instance whose calls all succeed. */
  predicate CleanStep(step: Step, id: nat) {
    step.Instance? ==> step.id == id && step.act != Handle(Threw) && step.act != Fail
  }

  predicate CleanRun(steps: seq<Step>, id: nat) {
    forall i :: 0 <= i < |steps| ==> CleanStep(steps[i], id)
  }

  ghost predicate BlocksUpTo(chain: seq<Event>, s: Sys, to: int) {
    forall k :: k in s.handled ==> 0 <= k < |chain| && chain[k].block <= to
  }

  /** What has been handled lies at or below cursor + 1, apart from the part of the running scan. */
  ghost predicate SoloInv(chain: seq<Event>, s: Sys, id: nat) {
    && (forall j :: j in s.phases ==> j == id)
    && match PhaseOf(s, id)
       case Ready(from) => s.cursor == Some(from - 1) && BlocksUpTo(chain, s, from)
       case Scanning(from, last, next) =>
         && s.cursor == Some(from - 1) && next <= |Delivery(chain, from, last)|
         && (forall k :: k in s.handled ==>
               0 <= k < |chain| && (chain[k].block > from ==> k in Delivery(chain, from, last)[..next]))
       case Raising(to) => s.cursor.Some? && s.cursor.value < to && BlocksUpTo(chain, s, to)
       case _ => if s.cursor.Some? then BlocksUpTo(chain, s, s.cursor.value + 1) else s.handled == []
  }

  lemma SoloHandle(chain: seq<Event>, s: Sys, id: nat, from: int, last: int, next: nat, outcome: Outcome)
    requires SoloInv(chain, s, id) && PhaseOf(s, id) == Scanning(from, last, next)
    requires next < |Delivery(chain, from, last)| && outcome != Threw
    ensures SoloInv(chain, NextHandle(chain, s, id, from, last, next, outcome), id)
  {
    var d := Delivery(chain, from, last);
    DeliveryWithin(chain, from, last);
    var t := NextHandle(chain, s, id, from, last, next, outcome);
    assert d[..next + 1] == d[..next] + [d[next]];
    assert forall k :: k in t.handled <==> k in s.handled || k == d[next];
  }

  lemma SoloFinish(chain: seq<Event>, s: Sys, id: nat, from: int, last: int)
    requires SoloInv(chain, s, id) && PhaseOf(s, id) == Scanning(from, last, |Delivery(chain, from, last)|)
    ensures BlocksUpTo(chain, s, ScanResult(chain, from, last)) && from <= ScanResult(chain, from, last)
  {
    var d := Delivery(chain, from, last);
    DeliveryWithin(chain, from, last);
    MaxBlockIsMax(chain, d, from);
    assert d[..|d|] == d;
  }

  lemma SoloStep(chain: seq<Event>, s: Sys, id: nat, step: Step)
    requires SoloInv(chain, s, id) && CleanStep(step, id) && Next(chain, s, step).Some?
    ensures SoloInv(chain, Next(chain, s, step).value, id)
  {
    if step.Instance? {
      if step.act.Handle? {
        var Scanning(from, last, next) := PhaseOf(s, id);
        SoloHandle(chain, s, id, from, last, next, step.act.outcome);
      } else if step.act.Finish? {
        var Scanning(from, last, next) := PhaseOf(s, id);
        SoloFinish(chain, s, id, from, last);
      }
    }
  }

  lemma {:induction false} SoloRun(chain: seq<Event>, head: int, id: nat, steps: seq<Step>)
    requires CleanRun(steps, id) && Exec(chain, Init(head), steps).Some?
    ensures SoloInv(chain, Exec(chain, Init(head), steps).value, id)
  {
    if steps == [] {
    } else {
      SoloRun(chain, head, id, steps[..|steps| - 1]);
      SoloStep(chain, Exec(chain, Init(head), steps[..|steps| - 1]).value, id, steps[|steps| - 1]);
    }
  }

  /** Exact replay set: in a clean run of one instance, the event about to be handled has been
      handled before only if its block is exactly cursor + 1. */
  lemma ReplayOnlyNextBlock(chain: seq<Event>, head: int, id: nat, steps: seq<Step>)
    requires CleanRun(steps, id) && Exec(chain, Init(head), steps).Some?
    requires var s := Exec(chain, Init(head), steps).value;
      Next(chain, s, Instance(id, Handle(Saved))).Some?
    ensures var s := Exec(chain, Init(head), steps).value;
      var t := Next(chain, s, Instance(id, Handle(Saved))).value;
      var k := t.handled[|s.handled|];
      && k < |chain| && s.cursor.Some?
      && (k in s.handled ==> chain[k].block == s.cursor.value + 1)
  {
    SoloRun(chain, head, id, steps);
    var s := Exec(chain, Init(head), steps).value;
    var Scanning(from, last, next) := PhaseOf(s, id);
    var d := Delivery(chain, from, last);
    DeliveryWithin(chain, from, last);
    DeliveryExact(chain, from, last);
    assert d[next] in d;
    assert d[next] !in d[..next];
  }

  /** A state that a clean run of one instance leads to. */
  ghost predicate CleanFrom(chain: seq<Event>, id: nat, s: Sys, t: Sys) {
    exists steps :: CleanRun(steps, id) && Exec(chain, s, steps) == Some(t)
  }

  lemma CleanExtend(chain: seq<Event>, id: nat, s0: Sys, s: Sys, act: Act) returns (t: Sys)
    requires CleanFrom(chain, id, s0, s) && NextInstance(chain, s, id, act).Some?
    requires act != Handle(Threw) && act != Fail
    ensures t == NextInstance(chain, s, id, act).value && CleanFrom(chain, id, s0, t)
  {
    t := NextInstance(chain, s, id, act).value;
    var steps :| CleanRun(steps, id) && Exec(chain, s0, steps) == Some(s);
    var more := steps + [Instance(id, act)];
    assert more[..|steps|] == steps;
    assert CleanRun(more, id) && Exec(chain, s0, more) == Some(t);
  }

  /** Handler calls of a scan, one after the other. */
  lemma {:induction false} HandleSome(chain: seq<Event>, id: nat, s0: Sys, s: Sys, from: int, last: int, n: nat)
    returns (t: Sys)
    requires CleanFrom(chain, id, s0, s) && PhaseOf(s, id) == Scanning(from, last, 0)
    requires n <= |Delivery(chain, from, last)|
    ensures CleanFrom(chain, id, s0, t) && PhaseOf(t, id) == Scanning(from, last, n)
    ensures t.handled == s.handled + Delivery(chain, from, last)[..n]
    decreases n
  {
    if n == 0 {
      t := s;
    } else {
      var m := HandleSome(chain, id, s0, s, from, last, n - 1);
      DeliveryWithin(chain, from, last);
      var d := Delivery(chain, from, last);
      assert d[..n] == d[..n - 1] + [d[n - 1]];
      t := CleanExtend(chain, id, s0, m, Handle(Saved));
    }
  }

  /** A poll that is ready to scan up to `last` can hand out its whole delivery. */
  lemma PollCanComplete(chain: seq<Event>, id: nat, s: Sys, last: int) returns (t: Sys)
    requires PhaseOf(s, id).Ready? && last <= s.head
    ensures CleanFrom(chain, id, s, t)
    ensures PhaseOf(t, id) == Scanning(PhaseOf(s, id).from, last, |Delivery(chain, PhaseOf(s, id).from, last)|)
  {
    var from, d := PhaseOf(s, id).from, Delivery(chain, PhaseOf(s, id).from, last);
    assert CleanRun([], id) && Exec(chain, s, []) == Some(s);
    var m := CleanExtend(chain, id, s, s, ReadHead(last));
    t := HandleSome(chain, id, s, m, from, last, |d|);
  }

  /** The instance has not left its poll after any prefix of the run. */
  ghost predicate StaysInPoll(chain: seq<Event>, id: nat, s: Sys, steps: seq<Step>) {
    && Exec(chain, s, steps).Some?
    && (var phase := PhaseOf(Exec(chain, s, steps).value, id); phase.Ready? || phase.Scanning?)
    && (steps == [] || StaysInPoll(chain, id, s, steps[..|steps| - 1]))
  }

  /** The scan has handed out its whole delivery. */
  predicate ScanDone(chain: seq<Event>, phase: Phase) {
    phase.Scanning? && phase.next == |Delivery(chain, phase.from, phase.last)|
  }

  /** How far a poll that started at s has come: what it has handled is the beginning of its delivery. */
  ghost predicate PollAt(chain: seq<Event>, id: nat, s: Sys, t: Sys)
    requires PhaseOf(s, id).Ready?
  {
    match PhaseOf(t, id)
    case Ready(from) => from == PhaseOf(s, id).from && t.handled == s.handled
    case Scanning(from, last, next) =>
      && from == PhaseOf(s, id).from && next <= |Delivery(chain, from, last)|
      && t.handled == s.handled + Delivery(chain, from, last)[..next]
    case _ => false
  }

  lemma PollStep(chain: seq<Event>, id: nat, s: Sys, m: Sys, step: Step)
    requires PhaseOf(s, id).Ready? && PollAt(chain, id, s, m) && CleanStep(step, id) && Next(chain, m, step).Some?
    requires var phase := PhaseOf(Next(chain, m, step).value, id); phase.Ready? || phase.Scanning?
    ensures PollAt(chain, id, s, Next(chain, m, step).value)
  {
    if step.Instance? && step.act.Handle? {
      var Scanning(from, last, next) := PhaseOf(m, id);
      DeliveryWithin(chain, from, last);
      var d := Delivery(chain, from, last);
      assert d[..next + 1] == d[..next] + [d[next]];
    }
  }

  lemma {:induction false} PollHandles(chain: seq<Event>, id: nat, s: Sys, steps: seq<Step>)
    requires PhaseOf(s, id).Ready? && CleanRun(steps, id) && StaysInPoll(chain, id, s, steps)
    ensures PollAt(chain, id, s, Exec(chain, s, steps).value)
  {
    if steps == [] {
    } else {
      var front, last := steps[..|steps| - 1], steps[|steps| - 1];
      PollHandles(chain, id, s, front);
      PollStep(chain, id, s, Exec(chain, s, front).value, last);
    }
  }

  lemma ReplaySet(chain: seq<Event>, s: Sys, from: int, last: int)
    requires BlocksUpTo(chain, s, from)
    ensures forall k :: k in s.handled ==>
      k < |chain| && (k in Delivery(chain, from, last) <==> chain[k].block == from < last)
  {
    DeliveryExact(chain, from, last);
  }

  /** What a poll that scans up to `last` from state s on has handled again when it is at t. */
  ghost predicate ReplaysExactly(chain: seq<Event>, s: Sys, t: Sys, last: int)
    requires s.cursor.Some?
  {
    && s.handled <= t.handled
    && forall k :: k in s.handled ==>
         k < |chain| && (k in t.handled[|s.handled|..] <==> chain[k].block == s.cursor.value + 1 < last)
  }

  lemma PollReplays(chain: seq<Event>, id: nat, s: Sys, t: Sys, last: int)
    requires SoloInv(chain, s, id) && PhaseOf(s, id).Ready? && PollAt(chain, id, s, t)
    requires PhaseOf(t, id) == Scanning(PhaseOf(s, id).from, last, |Delivery(chain, PhaseOf(s, id).from, last)|)
    ensures ReplaysExactly(chain, s, t, last)
  {
    var d := Delivery(chain, PhaseOf(s, id).from, last);
    ReplaySet(chain, s, PhaseOf(s, id).from, last);
    assert d[..|d|] == d;
    assert t.handled[|s.handled|..] == d;
  }

  /** Exact replay set of a whole poll: after any clean run of one instance, and however the poll that
      follows is carried out, what it has handled is always the beginning of its delivery, and when it
      has come through up to block `last` the events handled again are exactly those already handled of
      block cursor + 1 if `last` is beyond that block, and otherwise none. */
  lemma ReplayExactly(chain: seq<Event>, head: int, steps: seq<Step>, id: nat, more: seq<Step>)
    requires CleanRun(steps, id) && Exec(chain, Init(head), steps).Some?
    requires PhaseOf(Exec(chain, Init(head), steps).value, id).Ready?
    requires CleanRun(more, id) && StaysInPoll(chain, id, Exec(chain, Init(head), steps).value, more)
    ensures var s := Exec(chain, Init(head), steps).value;
      var t := Exec(chain, s, more).value;
      && s.cursor == Some(PhaseOf(s, id).from - 1) && PollAt(chain, id, s, t)
      && (ScanDone(chain, PhaseOf(t, id)) ==> ReplaysExactly(chain, s, t, PhaseOf(t, id).last))
  {
    SoloRun(chain, head, id, steps);
    var s := Exec(chain, Init(head), steps).value;
    PollHandles(chain, id, s, more);
    var t := Exec(chain, s, more).value;
    if ScanDone(chain, PhaseOf(t, id)) {
      PollReplays(chain, id, s, t, PhaseOf(t, id).last);
    }
  }
}
