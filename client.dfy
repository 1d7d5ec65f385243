/** The polite HTTP client: a delay between requests, and retries with backoff for transient
    failures. Time is an abstract clock in whole seconds that only waiting and sleeping
    advance; the network is a script giving the outcome of each send. */
module Client {
  import opened Wrappers

  const DEFAULT_USER_AGENT: string := "Mozilla/5.0 (compatible; rdrscrape/0.1; +https://github.com/rdrscrape)"
  const DEFAULT_TIMEOUT_SECS: nat := 30
  const DEFAULT_DELAY_SECS: nat := 4
  const MAX_REDIRECTS: nat := 10
  const DEFAULT_RETRY_COUNT: nat := 5
  const DEFAULT_BACKOFF_SECS: seq<nat> := [1, 2, 4, 8]
  const BACKOFF_429_SECS: seq<nat> := [30, 60, 90, 120]

  type Positive = n: nat | n >= 1 witness 1

  /** Why a send failed, as far as the retry rule cares. */
  datatype TransportKind = Timeout | Connect | OtherError

  /** What one send produced: a response with a status, or a transport error. */
  datatype SendOutcome = Responded(status: nat) | Failed(kind: TransportKind)

  /** `StatusCode::is_server_error`: 500 to 599 (section 15.6 of RFC 9110). */
  predicate IsServerError(status: nat) {
    500 <= status <= 599
  }

  /** A response worth retrying: a server error, or 429 Too Many Requests (section 4 of
      RFC 6585). */
  predicate RetryableStatus(status: nat) {
    IsServerError(status) || status == 429
  }

  /** A transport error worth retrying: a timeout or a failed connection. */
  predicate RetryableKind(kind: TransportKind) {
    kind == Timeout || kind == Connect
  }

  predicate Retryable(o: SendOutcome) {
    match o
    case Responded(status) => RetryableStatus(status)
    case Failed(kind) => RetryableKind(kind)
  }

  /** The configured backoff after attempt `attempt`: its own entry, else the last entry,
      else one second. */
  function ScheduledBackoff(backoff: seq<nat>, attempt: nat): nat {
    if attempt < |backoff| then backoff[attempt]
    else if backoff != [] then backoff[|backoff| - 1]
    else 1
  }

  /** The backoff after a retried outcome: the 429 table for rate limiting, the configured
      schedule for everything else. */
  function BackoffAfter(o: SendOutcome, backoff: seq<nat>, attempt: nat): nat {
    if o == Responded(429) then ScheduledBackoff(BACKOFF_429_SECS, attempt)
    else ScheduledBackoff(backoff, attempt)
  }

  /** After a 429 the wait grows 30, 60, 90, 120 seconds and then stays at 120. */
  lemma RateLimitBackoff(backoff: seq<nat>, attempt: nat)
    ensures BackoffAfter(Responded(429), backoff, attempt) == if attempt < 4 then 30 * (attempt + 1) else 120
  {
  }

  /** The time at which a request may go out: `delay` after the last recorded request, or
      right away when there is none or enough time has passed. */
  function SendTime(last: Option<nat>, now: nat, delay: nat): nat {
    if last.Some? && now < last.value + delay then last.value + delay else now
  }

  /** A send never goes out before the clock or sooner than `delay` after the last request,
      and it waits no longer than it must. */
  lemma SendTimeRespectsDelay(last: Option<nat>, now: nat, delay: nat)
    ensures var t := SendTime(last, now, delay);
      t >= now && (last.Some? ==> t >= last.value + delay)
      && (t == now || (last.Some? && t == last.value + delay))
  {
  }

  /** What `get_with_retry` does from attempt `attempt` on: the result, the times of the
      sends made, and the clock when it returns. */
  datatype Run = Run(result: Result<nat, TransportKind>, sends: seq<nat>, end: nat)

  function RetryRun(retryCount: nat, backoff: seq<nat>, delay: nat, last: Option<nat>, now: nat,
                    net: nat -> SendOutcome, attempt: nat): (run: Run)
    decreases retryCount - attempt
  {
    if attempt >= retryCount then
      // the loop never ran: the error of a request to http://[::1]:0/, a failed connection
      Run(Err(Connect), [], now)
    else
      var t := SendTime(last, now, delay);
      var o := net(attempt);
      if Retryable(o) && attempt < retryCount - 1 then
        var rest := RetryRun(retryCount, backoff, delay, last, t + BackoffAfter(o, backoff, attempt), net, attempt + 1);
        Run(rest.result, [t] + rest.sends, rest.end)
      else
        match o
        case Responded(status) => Run(Ok(status), [t], t)
        case Failed(kind) => Run(Err(kind), [t], t)
  }

  /** The result is never the fallback: with at least one attempt allowed, it is the outcome
      of the last send made; the sends made number between one and the attempts left. */
  lemma {:induction false} RunReturnsLastOutcome(retryCount: nat, backoff: seq<nat>, delay: nat, last: Option<nat>,
                                                 now: nat, net: nat -> SendOutcome, attempt: nat)
    requires attempt < retryCount
    ensures var run := RetryRun(retryCount, backoff, delay, last, now, net, attempt);
      1 <= |run.sends| <= retryCount - attempt
      && run.result == AsResult(net(attempt + |run.sends| - 1))
      && run.end == run.sends[|run.sends| - 1]
    decreases retryCount - attempt
  {
    var t := SendTime(last, now, delay);
    var o := net(attempt);
    if Retryable(o) && attempt < retryCount - 1 {
      RunStep(retryCount, backoff, delay, last, now, net, attempt);
      RunReturnsLastOutcome(retryCount, backoff, delay, last, t + BackoffAfter(o, backoff, attempt), net, attempt + 1);
    } else {
      RunStop(retryCount, backoff, delay, last, now, net, attempt);
    }
  }

  function AsResult(o: SendOutcome): Result<nat, TransportKind> {
    match o
    case Responded(status) => Ok(status)
    case Failed(kind) => Err(kind)
  }

  /** Every attempt before the last one was retryable, and the last one is either not
      retryable or the final attempt allowed. */
  lemma {:induction false} RunStopsOnlyWhenItMust(retryCount: nat, backoff: seq<nat>, delay: nat, last: Option<nat>,
                                                  now: nat, net: nat -> SendOutcome, attempt: nat)
    requires attempt < retryCount
    ensures var run := RetryRun(retryCount, backoff, delay, last, now, net, attempt);
      |run.sends| >= 1
      && (forall j :: attempt <= j < attempt + |run.sends| - 1 ==> Retryable(net(j)))
      && (Retryable(net(attempt + |run.sends| - 1)) ==> attempt + |run.sends| == retryCount)
    decreases retryCount - attempt
  {
    var t := SendTime(last, now, delay);
    var o := net(attempt);
    if Retryable(o) && attempt < retryCount - 1 {
      RunStep(retryCount, backoff, delay, last, now, net, attempt);
      var next := t + BackoffAfter(o, backoff, attempt);
      RunStopsOnlyWhenItMust(retryCount, backoff, delay, last, next, net, attempt + 1);
      var n := |RetryRun(retryCount, backoff, delay, last, next, net, attempt + 1).sends|;
      assert |RetryRun(retryCount, backoff, delay, last, now, net, attempt).sends| == n + 1;
      forall j | attempt <= j < attempt + n
        ensures Retryable(net(j))
      {
        if j > attempt {
          assert attempt + 1 <= j < attempt + 1 + n - 1;
        }
      }
    } else {
      RunStop(retryCount, backoff, delay, last, now, net, attempt);
    }
  }

  /** Politeness and backoff for a list of send times starting at attempt `attempt`: none
      before `now`, none sooner than `delay` after `last`, and each retry no sooner than the
      backoff after the send before it. */
  predicate Spaced(sends: seq<nat>, now: nat, last: Option<nat>, delay: nat, backoff: seq<nat>,
                   net: nat -> SendOutcome, attempt: nat)
  {
    (forall i :: 0 <= i < |sends| ==> sends[i] >= now)
    && (last.Some? ==> forall i :: 0 <= i < |sends| ==> sends[i] >= last.value + delay)
    && (forall i :: 0 <= i < |sends| - 1 ==>
          sends[i + 1] >= sends[i] + BackoffAfter(net(attempt + i), backoff, attempt + i))
  }

  /** One retry step: the run from `attempt` is the send at `SendTime` followed by the run
      from the next attempt, started after the backoff. */
  lemma RunStep(retryCount: nat, backoff: seq<nat>, delay: nat, last: Option<nat>, now: nat,
                net: nat -> SendOutcome, attempt: nat)
    requires attempt < retryCount - 1 && Retryable(net(attempt))
    ensures var t := SendTime(last, now, delay);
      var run := RetryRun(retryCount, backoff, delay, last, now, net, attempt);
      var rest := RetryRun(retryCount, backoff, delay, last, t + BackoffAfter(net(attempt), backoff, attempt), net, attempt + 1);
      run == Run(rest.result, [t] + rest.sends, rest.end)
  {
  }

  lemma AppendShift(done: seq<nat>, t: nat, rest: seq<nat>)
    ensures done + ([t] + rest) == (done + [t]) + rest
  {
  }

  /** The last step: an outcome that is not retried, or the final attempt, is returned. */
  lemma RunStop(retryCount: nat, backoff: seq<nat>, delay: nat, last: Option<nat>, now: nat,
                net: nat -> SendOutcome, attempt: nat)
    requires attempt < retryCount && !(Retryable(net(attempt)) && attempt < retryCount - 1)
    ensures var t := SendTime(last, now, delay);
      RetryRun(retryCount, backoff, delay, last, now, net, attempt) == Run(AsResult(net(attempt)), [t], t)
  {
  }

  /** Every send of `get_with_retry` waits for `delay` after the request recorded before the
      call, and each retry goes out no sooner than the backoff after the send before it. */
  lemma {:induction false} RunSpacing(retryCount: nat, backoff: seq<nat>, delay: nat, last: Option<nat>,
                                      now: nat, net: nat -> SendOutcome, attempt: nat)
    ensures Spaced(RetryRun(retryCount, backoff, delay, last, now, net, attempt).sends, now, last, delay, backoff, net, attempt)
    decreases retryCount - attempt
  {
    if attempt < retryCount {
      var t := SendTime(last, now, delay);
      var o := net(attempt);
      if Retryable(o) && attempt < retryCount - 1 {
        var next := t + BackoffAfter(o, backoff, attempt);
        RunSpacing(retryCount, backoff, delay, last, next, net, attempt + 1);
        RunStep(retryCount, backoff, delay, last, now, net, attempt);
        SendTimeRespectsDelay(last, now, delay);
        SpacedCons(t, RetryRun(retryCount, backoff, delay, last, next, net, attempt + 1).sends, now, next, last, delay, backoff, net, attempt);
      }
    }
  }

  /** A send followed by spaced retries from the time its backoff ends is spaced. */
  lemma SpacedCons(t: nat, rest: seq<nat>, now: nat, next: nat, last: Option<nat>, delay: nat,
                   backoff: seq<nat>, net: nat -> SendOutcome, attempt: nat)
    requires t >= now && (last.Some? ==> t >= last.value + delay)
    requires next == t + BackoffAfter(net(attempt), backoff, attempt)
    requires Spaced(rest, next, last, delay, backoff, net, attempt + 1)
    ensures Spaced([t] + rest, now, last, delay, backoff, net, attempt)
  {
    var sends := [t] + rest;
    forall i | 0 <= i < |sends|
      ensures sends[i] >= now && (last.Some? ==> sends[i] >= last.value + delay)
    {
      if i > 0 {
        assert sends[i] == rest[i - 1];
      }
    }
    forall i | 0 <= i < |sends| - 1
      ensures sends[i + 1] >= sends[i] + BackoffAfter(net(attempt + i), backoff, attempt + i)
    {
      assert sends[i + 1] == rest[i];
      if i > 0 {
        assert sends[i] == rest[i - 1];
        assert rest[(i - 1) + 1] >= rest[i - 1] + BackoffAfter(net(attempt + 1 + (i - 1)), backoff, attempt + 1 + (i - 1));
      }
    }
  }

  /** The synthesized default schedule: `1 << min(i, 4)` for each of the `n` retries. */
  function SynthesizedBackoff(n: nat): (r: seq<nat>)
    ensures |r| == n
    ensures forall i :: 0 <= i < n ==> r[i] == if i < 4 then Pow2(i) else 16
  {
    if n == 0 then [] else SynthesizedBackoff(n - 1) + [if n - 1 < 4 then Pow2(n - 1) else 16]
  }

  function Pow2(i: nat): nat {
    if i == 0 then 1 else 2 * Pow2(i - 1)
  }

  /** With five attempts the synthesized schedule is 1, 2, 4, 8. */
  lemma SynthesizedForFive()
    ensures SynthesizedBackoff(4) == [1, 2, 4, 8]
  {
    assert Pow2(3) == 8;
  }

  /** The builder's settings; `retryCount` is positive because the only setter clamps it. */
  datatype PoliteClientBuilder = PoliteClientBuilder(
    userAgent: Option<string>,
    delaySecs: nat,
    timeoutSecs: nat,
    retryCount: Positive,
    retryBackoffSecs: seq<nat>)
  {
    function WithUserAgent(ua: string): (b: PoliteClientBuilder)
      ensures b.userAgent == Some(ua)
      ensures b.(userAgent := userAgent) == this
    {
      this.(userAgent := Some(ua))
    }

    function WithDelaySecs(secs: nat): (b: PoliteClientBuilder)
      ensures b.delaySecs == secs
      ensures b.(delaySecs := delaySecs) == this
    {
      this.(delaySecs := secs)
    }

    function WithTimeoutSecs(secs: nat): (b: PoliteClientBuilder)
      ensures b.timeoutSecs == secs
      ensures b.(timeoutSecs := timeoutSecs) == this
    {
      this.(timeoutSecs := secs)
    }

    /** `retry_count(n)`: `n.max(1)`. */
    function WithRetryCount(n: nat): (b: PoliteClientBuilder)
      ensures b.retryCount >= 1
      ensures n >= 1 ==> b.retryCount == n
      ensures n == 0 ==> b.retryCount == 1
      ensures b.(retryCount := retryCount) == this
    {
      this.(retryCount := if n >= 1 then n else 1)
    }

    function WithRetryBackoffSecs(secs: seq<nat>): (b: PoliteClientBuilder)
      ensures b.retryBackoffSecs == secs
      ensures b.(retryBackoffSecs := retryBackoffSecs) == this
    {
      this.(retryBackoffSecs := secs)
    }

    /** The schedule `build` installs: the configured one, or the synthesized one when the
        configured one is empty. */
    function EffectiveBackoff(): (r: seq<nat>)
      ensures retryBackoffSecs != [] ==> r == retryBackoffSecs
      ensures retryBackoffSecs == [] ==> |r| == retryCount - 1
    {
      if retryBackoffSecs == [] then SynthesizedBackoff(retryCount - 1) else retryBackoffSecs
    }
  }

  /** `PoliteClientBuilder::default()`. */
  const DEFAULT_BUILDER: PoliteClientBuilder :=
    PoliteClientBuilder(None, DEFAULT_DELAY_SECS, DEFAULT_TIMEOUT_SECS, DEFAULT_RETRY_COUNT, DEFAULT_BACKOFF_SECS)

  /** The user agent `build` sends: the configured one or the default. */
  function UserAgentOf(b: PoliteClientBuilder): string {
    b.userAgent.GetOr(DEFAULT_USER_AGENT)
  }

  /** The client: the politeness settings, the time of the last recorded request, the clock,
      and the times of every request sent so far. */
  class PoliteClient {
    var delay: nat
    var lastRequest: Option<nat>
    var retryCount: Positive
    var backoffSecs: seq<nat>
    var now: nat
    var sent: seq<nat>

    /** A request is only ever recorded at or before the current time. */
    predicate Valid()
      reads this
    {
      lastRequest.Some? ==> lastRequest.value <= now
    }

    /** `build`: no request has been made yet. */
    constructor (b: PoliteClientBuilder, clock: nat)
      ensures Valid()
      ensures delay == b.delaySecs && retryCount == b.retryCount
      ensures backoffSecs == b.EffectiveBackoff()
      ensures lastRequest == None && now == clock && sent == []
    {
      delay := b.delaySecs;
      lastRequest := None;
      retryCount := b.retryCount;
      backoffSecs := b.EffectiveBackoff();
      now := clock;
      sent := [];
    }

    /** `wait_delay`: sleep only if the last request was less than `delay` ago. */
    method WaitDelay()
      requires Valid()
      modifies this
      ensures Valid()
      ensures now == SendTime(old(lastRequest), old(now), delay)
      ensures unchanged(this`lastRequest) && unchanged(this`sent)
      ensures unchanged(this`delay) && unchanged(this`retryCount) && unchanged(this`backoffSecs)
    {
      if lastRequest.Some? {
        var elapsed := now - lastRequest.value;
        if elapsed < delay {
          now := now + (delay - elapsed);
        }
      }
    }

    /** One request going out: wait for the delay, then send at the current time. */
    method Dispatch() returns (t: nat)
      requires Valid()
      modifies this
      ensures Valid()
      ensures t == now == SendTime(old(lastRequest), old(now), delay)
      ensures sent == old(sent) + [t]
      ensures unchanged(this`lastRequest)
      ensures unchanged(this`delay) && unchanged(this`retryCount) && unchanged(this`backoffSecs)
    {
      WaitDelay();
      t := now;
      sent := sent + [t];
    }

    /** `get` and `post_form`: wait, send, and record the time only when the send succeeded. */
    method Send(outcome: SendOutcome) returns (r: Result<nat, TransportKind>)
      requires Valid()
      modifies this
      ensures Valid()
      ensures r == AsResult(outcome)
      ensures now == SendTime(old(lastRequest), old(now), delay)
      ensures sent == old(sent) + [now]
      ensures lastRequest == if outcome.Responded? then Some(now) else old(lastRequest)
      ensures unchanged(this`delay) && unchanged(this`retryCount) && unchanged(this`backoffSecs)
    {
      var t := Dispatch();
      match outcome
      case Responded(status) =>
        lastRequest := Some(now);
        r := Ok(status);
      case Failed(kind) =>
        r := Err(kind);
    }

    /** `get_with_retry`: at most `retryCount` sends, sleeping the backoff between them; the
        time is recorded only when a response is returned. `net(a)` is attempt `a`'s outcome. */
    method GetWithRetry(net: nat -> SendOutcome) returns (r: Result<nat, TransportKind>)
      requires Valid()
      modifies this
      ensures Valid()
      ensures var run := RetryRun(old(retryCount), old(backoffSecs), old(delay), old(lastRequest), old(now), net, 0);
        r == run.result && now == run.end && sent == old(sent) + run.sends
        && lastRequest == (if r.Ok? then Some(run.end) else old(lastRequest))
      ensures unchanged(this`delay) && unchanged(this`retryCount) && unchanged(this`backoffSecs)
    {
      ghost var last0, now0, sent0 := lastRequest, now, sent;
      var attempts, backoff := retryCount, backoffSecs;
      ghost var wait := delay;
      ghost var run := RetryRun(attempts, backoff, wait, last0, now0, net, 0);
      ghost var done: seq<nat> := [];
      var attempt: nat := 0;
      while attempt < attempts
        invariant Valid()
        invariant attempt <= attempts
        invariant lastRequest == last0
        invariant delay == wait && retryCount == attempts && backoffSecs == backoff
        invariant sent == sent0 + done
        invariant RunFrom(run, done, RetryRun(attempts, backoff, wait, last0, now, net, attempt))
        decreases attempts - attempt
      {
        ghost var t0, d0 := now, done;
        var t := Dispatch();
        done := d0 + [t];
        AppendAssoc(sent0, d0, t);
        var o := OutcomeOf(net, attempt);
        if Retryable(o) && attempt < attempts - 1 {
          now := now + BackoffAfter(o, backoff, attempt);
          attempt := attempt + 1;
          RunAdvance(run, d0, attempts, backoff, wait, last0, t0, net, attempt - 1, now);
        } else {
          RunFinish(run, d0, attempts, backoff, wait, last0, t0, net, attempt);
          if o.Responded? {
            lastRequest := Some(now);
          }
          r := AsResult(o);
          return;
        }
      }
      r := Err(Connect);
    }
  }

  /** Attempt `a`'s outcome. */
  function OutcomeOf(net: nat -> SendOutcome, a: nat): SendOutcome {
    net(a)
  }

  /** `run` is what has been sent so far followed by the remaining run `rest`. */
  predicate RunFrom(run: Run, done: seq<nat>, rest: Run) {
    run.result == rest.result && run.end == rest.end && run.sends == done + rest.sends
  }

  lemma AppendAssoc(a: seq<nat>, b: seq<nat>, t: nat)
    ensures a + (b + [t]) == (a + b) + [t]
  {
  }

  /** A retried send moves from the remaining run to what has been sent. */
  lemma RunAdvance(run: Run, done: seq<nat>, retryCount: nat, backoff: seq<nat>, delay: nat, last: Option<nat>,
                   now: nat, net: nat -> SendOutcome, attempt: nat, next: nat)
    requires attempt < retryCount - 1 && Retryable(OutcomeOf(net, attempt))
    requires next == SendTime(last, now, delay) + BackoffAfter(OutcomeOf(net, attempt), backoff, attempt)
    requires RunFrom(run, done, RetryRun(retryCount, backoff, delay, last, now, net, attempt))
    ensures RunFrom(run, done + [SendTime(last, now, delay)], RetryRun(retryCount, backoff, delay, last, next, net, attempt + 1))
  {
    var t := SendTime(last, now, delay);
    RunStep(retryCount, backoff, delay, last, now, net, attempt);
    AppendShift(done, t, RetryRun(retryCount, backoff, delay, last, next, net, attempt + 1).sends);
  }

  /** A send that is returned completes the run. */
  lemma RunFinish(run: Run, done: seq<nat>, retryCount: nat, backoff: seq<nat>, delay: nat, last: Option<nat>,
                  now: nat, net: nat -> SendOutcome, attempt: nat)
    requires attempt < retryCount && !(Retryable(OutcomeOf(net, attempt)) && attempt < retryCount - 1)
    requires RunFrom(run, done, RetryRun(retryCount, backoff, delay, last, now, net, attempt))
    ensures var t := SendTime(last, now, delay);
      run.result == AsResult(OutcomeOf(net, attempt)) && run.end == t && run.sends == done + [t]
  {
    RunStop(retryCount, backoff, delay, last, now, net, attempt);
  }

  /** A fresh default client answers a call in which every attempt times out with five sends
      spaced 1, 2, 4 and 8 seconds apart, and returns the last timeout. */
  lemma DefaultClientExhaustsOnTimeouts(clock: nat)
    ensures var run := RetryRun(5, [1, 2, 4, 8], 4, None, clock, (a: nat) => Failed(Timeout), 0);
      run.result == Err(Timeout) && run.sends == [clock, clock + 1, clock + 3, clock + 7, clock + 15]
  {
    var net := (a: nat) => Failed(Timeout);
    assert RetryRun(5, [1, 2, 4, 8], 4, None, clock + 15, net, 4).sends == [clock + 15];
    assert RetryRun(5, [1, 2, 4, 8], 4, None, clock + 7, net, 3).sends == [clock + 7, clock + 15];
    assert RetryRun(5, [1, 2, 4, 8], 4, None, clock + 3, net, 2).sends == [clock + 3, clock + 7, clock + 15];
    assert RetryRun(5, [1, 2, 4, 8], 4, None, clock + 1, net, 1).sends == [clock + 1, clock + 3, clock + 7, clock + 15];
  }

  /** A 404 is returned at once, without a retry. */
  lemma ClientErrorNotRetried(retryCount: Positive, backoff: seq<nat>, delay: nat, last: Option<nat>, now: nat)
    ensures var run := RetryRun(retryCount, backoff, delay, last, now, (a: nat) => Responded(404), 0);
      run.result == Ok(404) && |run.sends| == 1
  {
  }

  /** The default builder: delay 4 seconds, timeout 30, five attempts, schedule 1, 2, 4, 8. */
  lemma DefaultBuilderSettings()
    ensures DEFAULT_BUILDER.delaySecs == 4 && DEFAULT_BUILDER.timeoutSecs == 30
    ensures DEFAULT_BUILDER.retryCount == 5 && DEFAULT_BUILDER.EffectiveBackoff() == [1, 2, 4, 8]
    ensures UserAgentOf(DEFAULT_BUILDER) == DEFAULT_USER_AGENT
  {
  }

  /** An emptied schedule is replaced by the synthesized one, whose length is one less than
      the attempts. */
  lemma EmptyScheduleSynthesized(n: nat)
    ensures DEFAULT_BUILDER.WithRetryCount(n).WithRetryBackoffSecs([]).EffectiveBackoff()
         == SynthesizedBackoff(if n >= 1 then n - 1 else 0)
  {
  }
}
