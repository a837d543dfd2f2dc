/** The scan of one poll: which block windows are queried, which events they deliver, and what the
    loop of `fetchAndProcessEvents` does with them. Events are named by their index in the chain's
    log, which is append-only and fixed for every block at or below the head. */
module EventWindows {
  import opened Common

  const EVENTS_BATCH_SIZE := 10000

  /** The unique key under which the handler stores the event, e.g. issuer and transaction hash. */
  type Key = (string, string)

  datatype Event = Event(block: int, key: Key)

  datatype Window = Window(lo: int, hi: int)

  predicate NoDuplicates<T(==)>(s: seq<T>) {
    forall i, j :: 0 <= i < j < |s| ==> s[i] != s[j]
  }

  function WindowAt(lo: int, last: int): Window {
    Window(lo, Min(lo + EVENTS_BATCH_SIZE, last))
  }

  /** The windows queried from `cur` on. */
  function Windows(cur: int, last: int): seq<Window>
    decreases last - cur
  {
    if cur < last then [WindowAt(cur, last)] + Windows(cur + EVENTS_BATCH_SIZE + 1, last) else []
  }

  /** `getPastEvents`, over the first n log entries. */
  function Query(chain: seq<Event>, w: Window, n: nat): seq<nat>
    requires n <= |chain|
  {
    if n == 0 then []
    else
      Query(chain, w, n - 1) + if w.lo <= chain[n - 1].block <= w.hi then [n - 1] else []
  }

  /** Everything one scan delivers, in order. */
  function Delivery(chain: seq<Event>, cur: int, last: int): seq<nat>
    decreases last - cur
  {
    if cur < last
    then Query(chain, WindowAt(cur, last), |chain|) + Delivery(chain, cur + EVENTS_BATCH_SIZE + 1, last)
    else []
  }

  /** The last block a scan of [from, last] looks at. */
  function CoveredTo(from: int, last: int): int {
    if last < from then from - 1
    else if (last - from) % (EVENTS_BATCH_SIZE + 1) == 0 then last - 1
    else last
  }

  lemma CoveredToSkips(cur: int, last: int)
    requires cur < last
    ensures CoveredTo(cur, last) ==
      if cur + EVENTS_BATCH_SIZE + 1 <= last then CoveredTo(cur + EVENTS_BATCH_SIZE + 1, last)
      else last
  {
  }

  ghost predicate Contiguous(ws: seq<Window>, from: int, to: int) {
    && (ws == [] ==> to == from - 1)
    && (ws != [] ==> ws[0].lo == from && ws[|ws| - 1].hi == to)
    && (forall i :: 0 <= i < |ws| ==> ws[i].lo <= ws[i].hi)
    && (forall i :: 0 <= i < |ws| - 1 ==> ws[i + 1].lo == ws[i].hi + 1)
  }

  /** Exact window cover: the queried windows are contiguous, of 10001 blocks each up to the last one, and
      cover [from, last], except that they stop at last - 1 exactly when last - from is a multiple of 10001. */
  lemma WindowsCoverExactly(from: int, last: int)
    ensures var ws := Windows(from, last);
      && Contiguous(ws, from, CoveredTo(from, last))
      && (forall i :: 0 <= i < |ws| ==> ws[i].hi == Min(ws[i].lo + 10000, last))
      && (from <= last ==> CoveredTo(from, last) == if (last - from) % 10001 == 0 then last - 1 else last)
      && (last < from ==> ws == [])
  {
    WindowsAreContiguous(from, last);
  }

  lemma {:induction false} WindowsAreContiguous(from: int, last: int)
    ensures Contiguous(Windows(from, last), from, CoveredTo(from, last))
    ensures forall w :: w in Windows(from, last) ==> w == WindowAt(w.lo, last)
    decreases last - from
  {
    if last <= from {
    } else {
      var next := from + EVENTS_BATCH_SIZE + 1;
      WindowsAreContiguous(next, last);
      CoveredToSkips(from, last);
      var rest := Windows(next, last);
      var ws := Windows(from, last);
      assert forall i :: 0 <= i < |rest| ==> ws[i + 1] == rest[i];
      if rest != [] {
        assert ws[|ws| - 1] == rest[|rest| - 1];
      }
    }
  }

  lemma {:induction false} QueryExact(chain: seq<Event>, w: Window, n: nat)
    requires n <= |chain|
    ensures forall k :: k in Query(chain, w, n) <==> 0 <= k < n && w.lo <= chain[k].block <= w.hi
    ensures NoDuplicates(Query(chain, w, n))
  {
    if n == 0 {
    } else {
      QueryExact(chain, w, n - 1);
      var front := Query(chain, w, n - 1);
      assert forall i :: 0 <= i < |front| ==> front[i] in front;
    }
  }

  /** A scan delivers exactly the events of the blocks it covers, each of them once. */
  lemma {:induction false} DeliveryExact(chain: seq<Event>, from: int, last: int)
    ensures forall k :: k in Delivery(chain, from, last)
                   <==> 0 <= k < |chain| && from <= chain[k].block <= CoveredTo(from, last)
    ensures NoDuplicates(Delivery(chain, from, last))
    decreases last - from
  {
    if last <= from {
    } else {
      var next := from + EVENTS_BATCH_SIZE + 1;
      var head, rest := Query(chain, WindowAt(from, last), |chain|), Delivery(chain, next, last);
      QueryExact(chain, WindowAt(from, last), |chain|);
      DeliveryExact(chain, next, last);
      CoveredToSkips(from, last);
      assert forall i :: 0 <= i < |head| ==> head[i] in head;
      assert forall i :: 0 <= i < |rest| ==> rest[i] in rest;
      assert forall k :: k in head + rest <==> k in head || k in rest;
    }
  }

  // ----- The order of delivery

  /** The log lists events in the order of their blocks. */
  ghost predicate InBlockOrder(chain: seq<Event>) {
    forall i, j :: 0 <= i < j < |chain| ==> chain[i].block <= chain[j].block
  }

  ghost predicate Ascending(ids: seq<nat>) {
    forall i, j :: 0 <= i < j < |ids| ==> ids[i] < ids[j]
  }

  lemma {:induction false} QueryAscends(chain: seq<Event>, w: Window, n: nat)
    requires n <= |chain|
    ensures Ascending(Query(chain, w, n))
    ensures forall k :: k in Query(chain, w, n) ==> k < n
  {
    if n > 0 {
      QueryAscends(chain, w, n - 1);
      var front := Query(chain, w, n - 1);
      assert forall i :: 0 <= i < |front| ==> front[i] in front;
    }
  }

  lemma AscendingConcat(a: seq<nat>, b: seq<nat>)
    requires Ascending(a) && Ascending(b) && forall x, y :: x in a && y in b ==> x < y
    ensures Ascending(a + b)
  {
    forall i, j | 0 <= i < j < |a + b|
      ensures (a + b)[i] < (a + b)[j]
    {
      if i < |a| <= j {
        assert a[i] in a && b[j - |a|] in b;
      }
    }
  }

  /** A scan delivers in the order of the log. */
  lemma {:induction false} DeliveryInOrder(chain: seq<Event>, from: int, last: int)
    requires InBlockOrder(chain)
    ensures Ascending(Delivery(chain, from, last))
    decreases last - from
  {
    if from < last {
      var w, next := WindowAt(from, last), from + EVENTS_BATCH_SIZE + 1;
      var head, rest := Query(chain, w, |chain|), Delivery(chain, next, last);
      QueryAscends(chain, w, |chain|);
      DeliveryInOrder(chain, next, last);
      QueryExact(chain, w, |chain|);
      DeliveryExact(chain, next, last);
      forall x, y | x in head && y in rest
        ensures x < y
      {
        assert chain[x].block <= w.hi < next <= chain[y].block;
      }
      AscendingConcat(head, rest);
    }
  }

  predicate Within(chain: seq<Event>, ids: seq<nat>) {
    forall i :: 0 <= i < |ids| ==> ids[i] < |chain|
  }

  /** The running maximum of the blocks of the handled events. */
  function MaxBlock(chain: seq<Event>, ids: seq<nat>, start: int): int
    requires Within(chain, ids)
  {
    if ids == [] then start
    else Max(MaxBlock(chain, ids[..|ids| - 1], start), chain[ids[|ids| - 1]].block)
  }

  lemma {:induction false} MaxBlockIsMax(chain: seq<Event>, ids: seq<nat>, start: int)
    requires Within(chain, ids)
    ensures start <= MaxBlock(chain, ids, start)
    ensures forall k :: k in ids ==> chain[k].block <= MaxBlock(chain, ids, start)
    ensures MaxBlock(chain, ids, start) == start
         || exists k :: k in ids && chain[k].block == MaxBlock(chain, ids, start)
  {
    if ids == [] {
    } else {
      var front, last := ids[..|ids| - 1], ids[|ids| - 1];
      MaxBlockIsMax(chain, front, start);
      assert ids == front + [last];
      assert last in ids;
      assert forall k :: k in front ==> k in ids;
    }
  }

  /** The part of a delivery that is handled before the handler throws. */
  function BeforeThrow(ids: seq<nat>, throws: nat -> bool): seq<nat> {
    if ids == [] || throws(ids[0]) then [] else [ids[0]] + BeforeThrow(ids[1..], throws)
  }

  lemma {:induction false} BeforeThrowAppend(a: seq<nat>, b: seq<nat>, throws: nat -> bool)
    ensures BeforeThrow(a + b, throws)
         == if BeforeThrow(a, throws) == a then a + BeforeThrow(b, throws) else BeforeThrow(a, throws)
  {
    if a == [] {
      assert a + b == b;
    } else {
      var first, rest := [a[0]], a[1..];
      BeforeThrowAppend(rest, b, throws);
      assert a == first + rest && (a + b)[1..] == rest + b;
      if !throws(a[0]) {
        assert BeforeThrow(a, throws) == first + BeforeThrow(rest, throws);
        assert (first + BeforeThrow(rest, throws))[1..] == BeforeThrow(rest, throws);
        assert first + (rest + BeforeThrow(b, throws)) == a + BeforeThrow(b, throws);
      }
    }
  }

  /** One more event that the handler accepts. */
  lemma HandleAccepts(events: seq<nat>, done: nat, throws: nat -> bool)
    requires done < |events| && BeforeThrow(events[..done], throws) == events[..done] && !throws(events[done])
    ensures BeforeThrow(events[..done + 1], throws) == events[..done + 1]
  {
    BeforeThrowAppend(events[..done], [events[done]], throws);
    assert events[..done + 1] == events[..done] + [events[done]];
  }

  /** An event on which the handler throws. */
  lemma HandleThrows(events: seq<nat>, done: nat, throws: nat -> bool)
    requires done < |events| && BeforeThrow(events[..done], throws) == events[..done] && throws(events[done])
    ensures BeforeThrow(events, throws) == events[..done] && BeforeThrow(events, throws) != events
  {
    BeforeThrowAppend(events[..done], events[done..], throws);
    assert events == events[..done] + events[done..];
    assert BeforeThrow(events[done..], throws) == [];
  }

  lemma MaxBlockAppend(chain: seq<Event>, ids: seq<nat>, k: nat, start: int)
    requires Within(chain, ids) && k < |chain|
    ensures Within(chain, ids + [k])
    ensures MaxBlock(chain, ids + [k], start) == Max(MaxBlock(chain, ids, start), chain[k].block)
  {
  }

  /** The first `done` events have been handled on top of those before. */
  ghost predicate Progress(chain: seq<Event>, events: seq<nat>, before: seq<nat>, start: int, throws: nat -> bool,
                           done: nat, handled: seq<nat>, newMax: int)
  {
    && done <= |events| && handled == before + events[..done]
    && BeforeThrow(events[..done], throws) == events[..done]
    && Within(chain, handled) && newMax == MaxBlock(chain, handled, start)
  }

  lemma ProgressStep(chain: seq<Event>, events: seq<nat>, before: seq<nat>, start: int, throws: nat -> bool,
                     done: nat, handled: seq<nat>, newMax: int)
    requires Within(chain, events) && Progress(chain, events, before, start, throws, done, handled, newMax)
    requires done < |events| && !throws(events[done])
    ensures Progress(chain, events, before, start, throws, done + 1, handled + [events[done]],
                     Max(newMax, chain[events[done]].block))
  {
    HandleAccepts(events, done, throws);
    MaxBlockAppend(chain, handled, events[done], start);
    assert events[..done + 1] == events[..done] + [events[done]];
  }

  /** One event list of `fetchAndProcessEvents`: handles in order, stops when the handler throws. */
  method ProcessEvents(chain: seq<Event>, events: seq<nat>, before: seq<nat>, maxBlock: int, start: int,
                       throws: nat -> bool)
    returns (ok: bool, handled: seq<nat>, newMax: int)
    requires Within(chain, before) && Within(chain, events)
    requires maxBlock == MaxBlock(chain, before, start)
    ensures handled == before + BeforeThrow(events, throws)
    ensures ok <==> BeforeThrow(events, throws) == events
    ensures Within(chain, handled) && newMax == MaxBlock(chain, handled, start)
  {
    ok, handled, newMax := true, before, maxBlock;
    var done := 0;
    while done < |events|
      invariant 0 <= done <= |events|
      invariant Progress(chain, events, before, start, throws, done, handled, newMax)
    {
      var event := events[done];
      if throws(event) {
        HandleThrows(events, done, throws);
        ok := false;
        return;
      }
      ProgressStep(chain, events, before, start, throws, done, handled, newMax);
      handled := handled + [event];
      newMax := Max(newMax, chain[event].block);
      done := done + 1;
    }
    assert events[..done] == events;
  }

  /** What is handled before a throw: the longest part from the start on which the handler does not throw. */
  ghost predicate StopsAtThrow(ids: seq<nat>, throws: nat -> bool, handled: seq<nat>) {
    && handled <= ids && (forall i :: 0 <= i < |handled| ==> !throws(handled[i]))
    && (|handled| < |ids| ==> throws(ids[|handled|]))
  }

  lemma {:induction false} BeforeThrowStops(ids: seq<nat>, throws: nat -> bool)
    ensures StopsAtThrow(ids, throws, BeforeThrow(ids, throws))
  {
    if ids == [] || throws(ids[0]) {
    } else {
      BeforeThrowStops(ids[1..], throws);
    }
  }

  lemma {:induction false} BeforeThrowShort(ids: seq<nat>, throws: nat -> bool)
    ensures BeforeThrow(ids, throws) != ids ==> |BeforeThrow(ids, throws)| < |ids|
  {
    if ids == [] || throws(ids[0]) {
    } else {
      BeforeThrowShort(ids[1..], throws);
    }
  }

  lemma QueryWithin(chain: seq<Event>, w: Window)
    ensures Within(chain, Query(chain, w, |chain|))
  {
    QueryExact(chain, w, |chain|);
    var events := Query(chain, w, |chain|);
    assert forall i :: 0 <= i < |events| ==> events[i] in events;
  }

  /** One event list within a delivery: either all of it is handled, or the delivery stops in it. */
  lemma ThrowWithin(done: seq<nat>, events: seq<nat>, rest: seq<nat>, throws: nat -> bool)
    requires BeforeThrow(done, throws) == done
    ensures var all := done + events + rest;
      if BeforeThrow(events, throws) == events
      then BeforeThrow(done + events, throws) == done + events
      else BeforeThrow(all, throws) == done + BeforeThrow(events, throws) && BeforeThrow(all, throws) != all
  {
    BeforeThrowAppend(done, events, throws);
    BeforeThrowAppend(done + events, rest, throws);
    BeforeThrowShort(events, throws);
  }

  /** One turn of the window loop, after `done` has been handled. */
  lemma ScanStep(chain: seq<Event>, cur: int, last: int, done: seq<nat>, throws: nat -> bool)
    requires cur < last && BeforeThrow(done, throws) == done
    ensures var events := Query(chain, WindowAt(cur, last), |chain|);
      var all := done + Delivery(chain, cur, last);
      && Within(chain, events)
      && all == done + events + Delivery(chain, cur + EVENTS_BATCH_SIZE + 1, last)
      && if BeforeThrow(events, throws) == events
         then BeforeThrow(done + events, throws) == done + events
         else BeforeThrow(all, throws) == done + BeforeThrow(events, throws) && BeforeThrow(all, throws) != all
  {
    var events := Query(chain, WindowAt(cur, last), |chain|);
    var rest := Delivery(chain, cur + EVENTS_BATCH_SIZE + 1, last);
    QueryWithin(chain, WindowAt(cur, last));
    assert done + Delivery(chain, cur, last) == done + events + rest;
    ThrowWithin(done, events, rest, throws);
  }

  /** What the window loop has achieved when it reaches `cur`. */
  ghost predicate ScanState(chain: seq<Event>, from: int, last: int, throws: nat -> bool,
                            cur: int, handled: seq<nat>, windows: seq<Window>)
  {
    && windows + Windows(cur, last) == Windows(from, last)
    && handled + Delivery(chain, cur, last) == Delivery(chain, from, last)
    && BeforeThrow(handled, throws) == handled
  }

  lemma Regroup(windows: seq<Window>, w: Window, rest: seq<Window>, all: seq<Window>)
    requires windows + ([w] + rest) == all
    ensures (windows + [w]) + rest == all && windows + [w] <= all
  {
    assert (windows + [w]) + rest == windows + ([w] + rest);
  }

  lemma WindowTurn(from: int, last: int, cur: int, windows: seq<Window>)
    requires cur < last && windows + Windows(cur, last) == Windows(from, last)
    ensures var grown := windows + [WindowAt(cur, last)];
      && grown + Windows(cur + EVENTS_BATCH_SIZE + 1, last) == Windows(from, last)
      && grown <= Windows(from, last)
  {
    Regroup(windows, WindowAt(cur, last), Windows(cur + EVENTS_BATCH_SIZE + 1, last), Windows(from, last));
  }

  /** The handler has thrown on one of the events of the window at `cur`. */
  lemma ScanThrew(chain: seq<Event>, from: int, last: int, throws: nat -> bool,
                  cur: int, done: seq<nat>, windows: seq<Window>, handled: seq<nat>)
    requires ScanState(chain, from, last, throws, cur, done, windows) && cur < last
    requires var events := Query(chain, WindowAt(cur, last), |chain|);
      handled == done + BeforeThrow(events, throws) && BeforeThrow(events, throws) != events
    ensures var all := Delivery(chain, from, last);
      handled == BeforeThrow(all, throws) && handled != all && StopsAtThrow(all, throws, handled)
  {
    ScanStep(chain, cur, last, done, throws);
    BeforeThrowStops(Delivery(chain, from, last), throws);
  }

  /** All events of the window at `cur` have been handled. */
  lemma ScanGoesOn(chain: seq<Event>, from: int, last: int, throws: nat -> bool,
                   cur: int, done: seq<nat>, windows: seq<Window>, handled: seq<nat>)
    requires ScanState(chain, from, last, throws, cur, done, windows) && cur < last
    requires var events := Query(chain, WindowAt(cur, last), |chain|);
      handled == done + BeforeThrow(events, throws) && BeforeThrow(events, throws) == events
    ensures ScanState(chain, from, last, throws, cur + EVENTS_BATCH_SIZE + 1, handled, windows + [WindowAt(cur, last)])
  {
    ScanStep(chain, cur, last, done, throws);
    WindowTurn(from, last, cur, windows);
  }

  lemma ScanDone(chain: seq<Event>, from: int, last: int, throws: nat -> bool,
                 cur: int, handled: seq<nat>, windows: seq<Window>)
    requires ScanState(chain, from, last, throws, cur, handled, windows) && last <= cur
    ensures handled == Delivery(chain, from, last) && windows == Windows(from, last)
    ensures BeforeThrow(handled, throws) == handled && StopsAtThrow(handled, throws, handled)
  {
    assert handled + [] == handled && windows + [] == windows;
    BeforeThrowStops(handled, throws);
  }

  /** `fetchAndProcessEvents`: the result is None when the handler threw. */
  method FetchAndProcessEvents(chain: seq<Event>, fromBlock: int, lastBlock: int, throws: nat -> bool)
    returns (result: Option<int>, handled: seq<nat>, windows: seq<Window>)
    ensures StopsAtThrow(Delivery(chain, fromBlock, lastBlock), throws, handled)
    ensures handled == BeforeThrow(Delivery(chain, fromBlock, lastBlock), throws)
    ensures result.Some? <==> handled == Delivery(chain, fromBlock, lastBlock)
    ensures Within(chain, handled)
    ensures result.Some? ==> result.value == MaxBlock(chain, handled, fromBlock)
    ensures result.Some? ==> windows == Windows(fromBlock, lastBlock)
    ensures windows <= Windows(fromBlock, lastBlock)
  {
    var maxBlock, cur := fromBlock, fromBlock;
    handled, windows := [], [];
    while cur < lastBlock
      invariant ScanState(chain, fromBlock, lastBlock, throws, cur, handled, windows)
      invariant Within(chain, handled) && maxBlock == MaxBlock(chain, handled, fromBlock)
      decreases lastBlock - cur
    {
      var w := WindowAt(cur, lastBlock);
      var events := Query(chain, w, |chain|);
      QueryWithin(chain, w);
      WindowTurn(fromBlock, lastBlock, cur, windows);
      ghost var done, before := handled, windows;
      windows := windows + [w];
      var ok;
      ok, handled, maxBlock := ProcessEvents(chain, events, handled, maxBlock, fromBlock, throws);
      if !ok {
        ScanThrew(chain, fromBlock, lastBlock, throws, cur, done, before, handled);
        result := None;
        return;
      }
      ScanGoesOn(chain, fromBlock, lastBlock, throws, cur, done, before, handled);
      cur := cur + EVENTS_BATCH_SIZE + 1;
    }
    ScanDone(chain, fromBlock, lastBlock, throws, cur, handled, windows);
    result := Some(maxBlock);
  }
}
