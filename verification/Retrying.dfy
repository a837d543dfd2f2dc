/** The `retry` decorator and the polling loops of the client kit that are wrapped in it. The
    outcome of the n-th call is the n-th element of a stream, so every statement holds whatever the
    wrapped calls return. */
module Retrying {
  import opened Common

  datatype Failure = Failure(errorType: string, detail: int)

  datatype Options = Options(
    tries: int,
    bailOnErrorTypes: set<string>,
    shouldRetry: Option<Failure -> bool>)

  /** Whether the error stops the loop before the tries are used up. */
  predicate Refuses(opts: Options, e: Failure) {
    || e.errorType in opts.bailOnErrorTypes
    || (opts.shouldRetry.Some? && !opts.shouldRetry.value(e))
  }

  /** Whether the loop returns after attempt k with this outcome. */
  predicate Stops<T>(opts: Options, res: Result<T, Failure>, k: int) {
    res.Ok? || k == opts.tries || Refuses(opts, res.error)
  }

  /** The attempt after which the loop returns. */
  ghost predicate FirstStop<T>(opts: Options, outcomes: nat -> Result<T, Failure>, n: nat) {
    1 <= n && Stops(opts, outcomes(n), n) && forall k: nat :: 1 <= k < n ==> !Stops(opts, outcomes(k), k)
  }

  /** The decorated method. `notified` lists the calls of `onRetry`: error and attempt number. */
  method Retry<T>(opts: Options, outcomes: nat -> Result<T, Failure>)
    returns (res: Result<T, Failure>, calls: nat, notified: seq<(Failure, nat)>)
    requires opts.tries >= 1
    ensures FirstStop(opts, outcomes, calls) && res == outcomes(calls)
    ensures forall k: nat :: 1 <= k < calls ==>
      && outcomes(k).Err? && outcomes(k).error.errorType !in opts.bailOnErrorTypes
      && (opts.shouldRetry.Some? ==> opts.shouldRetry.value(outcomes(k).error))
    ensures res.Ok? || calls == opts.tries || res.error.errorType in opts.bailOnErrorTypes
      || (opts.shouldRetry.Some? && !opts.shouldRetry.value(res.error))
    ensures 1 <= calls <= opts.tries
    ensures |notified| == if res.Ok? then calls - 1 else calls
    ensures forall k :: 0 <= k < |notified| ==>
      outcomes(k + 1).Err? && notified[k] == (outcomes(k + 1).error, k + 1)
  {
    calls := 1;
    notified := [];
    while true
      invariant 1 <= calls <= opts.tries
      invariant forall k: nat :: 1 <= k < calls ==> !Stops(opts, outcomes(k), k)
      invariant |notified| == calls - 1
      invariant forall k :: 0 <= k < |notified| ==>
        outcomes(k + 1).Err? && notified[k] == (outcomes(k + 1).error, k + 1)
      decreases opts.tries - calls
    {
      res := outcomes(calls);
      if res.Ok? {
        return;
      }
      notified := notified + [(res.error, calls)];
      if calls == opts.tries {
        return;
      }
      if res.error.errorType in opts.bailOnErrorTypes {
        return;
      }
      if opts.shouldRetry.Some? && !opts.shouldRetry.value(res.error) {
        return;
      }
      calls := calls + 1;
    }
  }

  /** The stopping attempt is unique, so the result is determined by the outcomes. */
  lemma FirstStopUnique<T>(opts: Options, outcomes: nat -> Result<T, Failure>, m: nat, n: nat)
    requires FirstStop(opts, outcomes, m) && FirstStop(opts, outcomes, n)
    ensures m == n
  {
  }

  ghost predicate Terminates(opts: Options, outcomes: nat -> Result<int, Failure>) {
    exists n: nat :: FirstStop(opts, outcomes, n)
  }

  /** `retry` stops on every stream of outcomes exactly when at least one try is configured: the
      counter is compared for equality, so zero or fewer tries retry a retryable error for ever. */
  lemma TerminatesIffTries(opts: Options, e: Failure)
    requires !Refuses(opts, e)
    ensures (forall outcomes: nat -> Result<int, Failure> :: Terminates(opts, outcomes)) <==> opts.tries >= 1
  {
    if opts.tries >= 1 {
      forall outcomes: nat -> Result<int, Failure>
        ensures Terminates(opts, outcomes)
      {
        var n := FindStop(opts, outcomes, 1);
      }
    } else {
      var always: nat -> Result<int, Failure> := n => Err(e);
      assert !Terminates(opts, always);
    }
  }

  lemma {:induction false} FindStop<T>(opts: Options, outcomes: nat -> Result<T, Failure>, from: nat) returns (n: nat)
    requires 1 <= from <= opts.tries
    requires forall k: nat :: 1 <= k < from ==> !Stops(opts, outcomes(k), k)
    ensures FirstStop(opts, outcomes, n)
    decreases opts.tries - from
  {
    if Stops(opts, outcomes(from), from) {
      n := from;
    } else {
      n := FindStop(opts, outcomes, from + 1);
    }
  }

  // ----- Waiting for a receipt, and the retried method around it

  datatype TxResult = Receipt | Reverted | TimedOut

  /** Poll i happens when i intervals have been waited, and only before the timeout. */
  predicate Polled(i: int, interval: int, timeout: int) {
    0 <= i && i * interval < timeout
  }

  /** `waitForReceipt`: `receipts(i)` is what poll i sees, the success flag of the receipt if any. */
  method WaitForReceipt(receipts: nat -> Option<bool>, timeout: int, interval: int)
    returns (r: TxResult, waited: int, ghost polls: nat)
    requires 0 <= timeout && 0 < interval
    ensures 0 <= waited < timeout + interval && waited == polls * interval
    ensures forall i: nat :: i < polls ==> receipts(i).None? && Polled(i, interval, timeout)
    ensures r.TimedOut? <==> !Polled(polls, interval, timeout)
    ensures Polled(polls, interval, timeout) ==>
      receipts(polls).Some? && r == if receipts(polls).value then Receipt else Reverted
  {
    var receipt: Option<bool> := None;
    waited, polls := 0, 0;
    var next: nat := 0;
    while receipt.None? && waited < timeout
      invariant next == polls && waited == polls * interval && 0 <= waited < timeout + interval
      invariant forall i: nat :: i < polls ==> receipts(i).None? && Polled(i, interval, timeout)
      invariant receipt.Some? ==> Polled(polls, interval, timeout) && receipt == receipts(polls)
      decreases receipt.None?, timeout - waited
    {
      receipt := receipts(next);
      if receipt.None? {
        assert (polls + 1) * interval == waited + interval;
        waited := waited + interval;
        next := next + 1;
        polls := polls + 1;
      }
    }
    if receipt.None? {
      r := TimedOut;
    } else if !receipt.value {
      r := Reverted;
    } else {
      r := Receipt;
    }
  }

  /** The client times out exactly when no poll before the timeout sees a receipt. */
  lemma TimeoutExact(receipts: nat -> Option<bool>, timeout: int, interval: int, polls: nat)
    requires 0 < interval
    requires forall i: nat :: i < polls ==> receipts(i).None?
    requires Polled(polls, interval, timeout) ==> receipts(polls).Some?
    ensures !Polled(polls, interval, timeout) <==>
      forall i: nat :: Polled(i, interval, timeout) ==> receipts(i).None?
  {
  }

  /** The first poll to see a receipt, before the timeout, sees this success flag. */
  ghost predicate SeesReceipt(receipts: nat -> Option<bool>, timeout: int, interval: int, poll: nat, success: bool) {
    && Polled(poll, interval, timeout) && receipts(poll) == Some(success)
    && forall i: nat :: i < poll ==> receipts(i).None?
  }

  ghost predicate SeesNothing(receipts: nat -> Option<bool>, timeout: int, interval: int) {
    forall i: nat :: Polled(i, interval, timeout) ==> receipts(i).None?
  }

  /** What the wait for a receipt makes of an attempt: Ok exactly when the first receipt says so, an Err of
      type Revert when it says otherwise, and one of type Timeout when there is none in time. */
  ghost predicate WaitYields(receipts: nat -> Option<bool>, timeout: int, interval: int, res: Result<int, Failure>) {
    && (res.Ok? <==> exists poll: nat :: SeesReceipt(receipts, timeout, interval, poll, true))
    && (res.Err? && res.error.errorType == "Revert" <==>
          exists poll: nat :: SeesReceipt(receipts, timeout, interval, poll, false))
    && (res.Err? && res.error.errorType == "Timeout" <==> SeesNothing(receipts, timeout, interval))
  }

  /** What one attempt yields: the last error of the retried request, or what the wait yields. */
  ghost predicate AttemptYields(inner: Options, request: nat -> Result<int, Failure>, receipts: nat -> Option<bool>,
                                timeout: int, interval: int, res: Result<int, Failure>)
  {
    exists n: nat :: FirstStop(inner, request, n) && EndsAs(request(n), receipts, timeout, interval, res)
  }

  ghost predicate EndsAs(reply: Result<int, Failure>, receipts: nat -> Option<bool>, timeout: int, interval: int,
                         res: Result<int, Failure>)
  {
    if reply.Err? then res == reply else WaitYields(receipts, timeout, interval, res)
  }

  /** `submitMetaTransaction`: n outer tries around a request with m inner tries and one wait for a
      receipt. Attempt k sees the inner outcomes `requests(k)` and the polls `receipts(k)`. It costs
      at most n * m requests and waits less than n * (timeout + interval). */
  method SubmitMetaTransaction(outer: Options, inner: Options,
                               requests: nat -> nat -> Result<int, Failure>,
                               receipts: nat -> nat -> Option<bool>,
                               timeout: int, interval: int)
    returns (res: Result<int, Failure>, attempts: nat, innerCalls: nat, waited: int,
             ghost results: seq<Result<int, Failure>>)
    requires outer.tries >= 1 && inner.tries >= 1 && 0 <= timeout && 0 < interval
    ensures 1 <= attempts <= outer.tries && |results| == attempts
    ensures attempts <= innerCalls <= outer.tries * inner.tries
    ensures 0 <= waited < outer.tries * (timeout + interval)
    ensures forall k :: 0 <= k < attempts ==>
      AttemptYields(inner, requests(k + 1), receipts(k + 1), timeout, interval, results[k])
    ensures forall k :: 0 <= k < attempts - 1 ==> !Stops(outer, results[k], k + 1)
    ensures res == results[attempts - 1] && Stops(outer, res, attempts)
    ensures res.Ok? <==>
      && (exists n: nat :: FirstStop(inner, requests(attempts), n) && requests(attempts)(n).Ok?)
      && (exists poll: nat :: SeesReceipt(receipts(attempts), timeout, interval, poll, true))
  {
    attempts, innerCalls, waited, results := 0, 0, 0, [];
    while true
      invariant 0 <= attempts < outer.tries && |results| == attempts
      invariant attempts <= innerCalls <= attempts * inner.tries
      invariant 0 <= waited <= attempts * (timeout + interval)
      invariant forall k :: 0 <= k < attempts ==>
        && AttemptYields(inner, requests(k + 1), receipts(k + 1), timeout, interval, results[k])
        && !Stops(outer, results[k], k + 1)
      decreases outer.tries - attempts
    {
      attempts := attempts + 1;
      var calls, slept;
      res, calls, slept := SubmitOnce(inner, requests(attempts), receipts(attempts), timeout, interval);
      CostStep(attempts - 1, inner.tries, innerCalls, calls);
      innerCalls := innerCalls + calls;
      WaitStep(attempts - 1, outer.tries, timeout + interval, waited, slept);
      waited := waited + slept;
      results := results + [res];
      if res.Ok? || attempts == outer.tries || Refuses(outer, res.error) {
        CostWithin(attempts, outer.tries, inner.tries);
        OkMeans(inner, requests(attempts), receipts(attempts), timeout, interval, res);
        return;
      }
    }
  }

  /** The undecorated body of `submitMetaTransaction`. */
  method SubmitOnce(inner: Options, request: nat -> Result<int, Failure>, receipts: nat -> Option<bool>,
                    timeout: int, interval: int)
    returns (res: Result<int, Failure>, calls: nat, slept: int)
    requires inner.tries >= 1 && 0 <= timeout && 0 < interval
    ensures 1 <= calls <= inner.tries && 0 <= slept < timeout + interval
    ensures AttemptYields(inner, request, receipts, timeout, interval, res)
  {
    var reply, notified;
    reply, calls, notified := Retry(inner, request);
    slept := 0;
    if reply.Err? {
      res := reply;
    } else {
      var r;
      ghost var polls;
      r, slept, polls := WaitForReceipt(receipts, timeout, interval);
      match r {
        case TimedOut => res := Err(Failure("Timeout", 0));
        case Reverted => res := Err(Failure("Revert", 0));
        case Receipt => res := Ok(0);
      }
      WaitDecides(receipts, timeout, interval, polls);
      assert WaitYields(receipts, timeout, interval, res);
    }
  }

  /** A wait ends in one way only. */
  lemma WaitDecides(receipts: nat -> Option<bool>, timeout: int, interval: int, polls: nat)
    requires 0 < interval
    requires forall i: nat :: i < polls ==> receipts(i).None?
    requires Polled(polls, interval, timeout) ==> receipts(polls).Some?
    ensures Polled(polls, interval, timeout) ==>
      && SeesReceipt(receipts, timeout, interval, polls, receipts(polls).value)
      && !SeesNothing(receipts, timeout, interval)
    ensures !Polled(polls, interval, timeout) <==> SeesNothing(receipts, timeout, interval)
    ensures forall poll: nat, success :: SeesReceipt(receipts, timeout, interval, poll, success) ==>
      poll == polls && receipts(polls) == Some(success)
  {
    TimeoutExact(receipts, timeout, interval, polls);
  }

  lemma OkMeans(inner: Options, request: nat -> Result<int, Failure>, receipts: nat -> Option<bool>,
                timeout: int, interval: int, res: Result<int, Failure>)
    requires AttemptYields(inner, request, receipts, timeout, interval, res)
    ensures res.Ok? <==>
      && (exists n: nat :: FirstStop(inner, request, n) && request(n).Ok?)
      && (exists poll: nat :: SeesReceipt(receipts, timeout, interval, poll, true))
  {
    var n: nat :| FirstStop(inner, request, n) && EndsAs(request(n), receipts, timeout, interval, res);
    forall m: nat | FirstStop(inner, request, m)
      ensures m == n
    {
      FirstStopUnique(inner, request, m, n);
    }
  }

  lemma CostStep(done: nat, each: nat, spent: nat, more: nat)
    requires spent <= done * each && more <= each
    ensures spent + more <= (done + 1) * each
  {
  }

  lemma CostWithin(done: nat, limit: nat, each: nat)
    requires done <= limit
    ensures done * each <= limit * each
  {
  }

  lemma WaitStep(done: nat, limit: nat, each: int, waited: int, more: int)
    requires done < limit && 0 < each && 0 <= waited <= done * each && 0 <= more < each
    ensures waited + more < limit * each && waited + more <= (done + 1) * each
  {
  }
}
