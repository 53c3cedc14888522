/** The circuit breaker: failing calls open it, a timeout lets trial calls through, enough successes close it. */
module CircuitBreaker {
  import opened Core

  datatype State = Closed | Open | HalfOpen

  /** Durations and instants are whole milliseconds. */
  datatype Settings = Settings(failureThreshold: int, timeout: int, halfOpenMaxCalls: int,
      halfOpenSuccessThreshold: int)

  const U32_LIMIT := 0x1_0000_0000

  /** Settings for which no counter overflows 32 bits, and which let the breaker both open and close. */
  predicate Sane(s: Settings) {
    && 1 <= s.failureThreshold < U32_LIMIT
    && 1 <= s.halfOpenMaxCalls && s.halfOpenMaxCalls * 100 < U32_LIMIT
    && 0 <= s.halfOpenSuccessThreshold <= 100
  }

  type Config = s: Settings | Sane(s) witness Settings(5, 60_000, 3, 67)

  datatype Breaker = Breaker(state: State, failures: int, lastFailure: int, calls: int, successes: int)

  datatype Outcome = Rejected | Passed(ok: bool)

  /** One use of the breaker. A call reads the clock when it starts and, if it fails, again when it ends. */
  datatype Op = Poll(now: int) | Call(start: int, ok: bool, end: int) | Reset

  const INITIAL := Breaker(Closed, 0, 0, 0, 0)

  /** A time of zero stands for no failure. Readings before the epoch are negative and cannot be compared. */
  predicate TimedOut(config: Config, lastFailure: int, now: int) {
    if lastFailure == 0 then config.timeout <= 0 else now >= 0 && Monus(now, lastFailure) >= config.timeout
  }

  /** A failure before the epoch leaves the time of the last one as it is. */
  function FailureTime(lastFailure: int, now: int): int {
    if now < 0 then lastFailure else now
  }

  function Observed(config: Config, b: Breaker, now: int): Breaker {
    if b.state == Open && TimedOut(config, b.lastFailure, now) then b.(state := HalfOpen, calls := 0, successes := 0)
    else b
  }

  function Succeeded(config: Config, b: Breaker, now: int): Breaker {
    match b.state
    case Closed => b.(failures := 0)
    case Open => b
    case HalfOpen =>
      var b' := b.(successes := b.successes + 1);
      if b'.calls < config.halfOpenMaxCalls then b'
      else if (b'.successes * 100) / b'.calls >= config.halfOpenSuccessThreshold
          then b'.(state := Closed, failures := 0)
      else b'.(state := Open, lastFailure := FailureTime(b.lastFailure, now))
  }

  function Failed(config: Config, b: Breaker, now: int): Breaker {
    var b' := b.(lastFailure := FailureTime(b.lastFailure, now));
    match b.state
    case Closed =>
      var failures := b.failures + 1;
      b'.(failures := failures, state := if failures >= config.failureThreshold then Open else Closed)
    case HalfOpen => b'.(state := Open, calls := 0, successes := 0)
    case Open => b'
  }

  function Finished(config: Config, b: Breaker, ok: bool, now: int): Breaker {
    if ok then Succeeded(config, b, now) else Failed(config, b, now)
  }

  function Called(config: Config, b: Breaker, start: int, ok: bool, end: int): (Breaker, Outcome) {
    var b' := Observed(config, b, start);
    match b'.state
    case Closed => (Finished(config, b', ok, end), Passed(ok))
    case Open => (b', Rejected)
    case HalfOpen =>
      if b'.calls + 1 > config.halfOpenMaxCalls then (b', Rejected)
      else (Finished(config, b'.(calls := b'.calls + 1), ok, end), Passed(ok))
  }

  function Restarted(b: Breaker): Breaker {
    INITIAL.(lastFailure := b.lastFailure)
  }

  function After(config: Config, b: Breaker, op: Op): Breaker {
    match op
    case Poll(now) => Observed(config, b, now)
    case Call(start, ok, end) => Called(config, b, start, ok, end).0
    case Reset => Restarted(b)
  }

  class CircuitBreaker {
    const config: Config
    var state: State
    var consecutiveFailures: int
    var consecutiveSuccesses: int
    var lastFailureTime: int
    var halfOpenCalls: int
    var halfOpenSuccesses: int

    ghost function View(): Breaker
      reads this
    {
      Breaker(state, consecutiveFailures, lastFailureTime, halfOpenCalls, halfOpenSuccesses)
    }

    constructor (config: Config)
      ensures this.config == config && View() == INITIAL
    {
      this.config := config;
      state, consecutiveFailures, consecutiveSuccesses := Closed, 0, 0;
      lastFailureTime, halfOpenCalls, halfOpenSuccesses := 0, 0, 0;
    }

    method CurrentState(now: int) returns (r: State)
      modifies this
      ensures View() == Observed(config, old(View()), now) && r == state
    {
      if state == Open {
        var elapsed := TimeSinceLastFailure(now);
        if elapsed.Some? && elapsed.value >= config.timeout {
          state := HalfOpen;
          halfOpenCalls := 0;
          halfOpenSuccesses := 0;
          return HalfOpen;
        }
      }
      return state;
    }

    method RecordLastFailure(now: int)
      modifies `lastFailureTime
      ensures lastFailureTime == FailureTime(old(lastFailureTime), now)
    {
      if now >= 0 {
        lastFailureTime := now;
      }
    }

    /** None before the epoch. */
    method TimeSinceLastFailure(now: int) returns (elapsed: Option<int>)
      ensures TimedOut(config, lastFailureTime, now) <==> elapsed.Some? && elapsed.value >= config.timeout
    {
      if lastFailureTime == 0 {
        return Some(0);
      }
      if now < 0 {
        return None;
      }
      return Some(Monus(now, lastFailureTime));
    }

    method RecordSuccess(now: int)
      modifies this
      ensures View() == Succeeded(config, old(View()), now)
    {
      match state
      case Closed =>
        consecutiveFailures := 0;
      case Open =>
      case HalfOpen =>
        halfOpenSuccesses := halfOpenSuccesses + 1;
        if halfOpenCalls >= config.halfOpenMaxCalls {
          var percentage := (halfOpenSuccesses * 100) / halfOpenCalls;
          if percentage >= config.halfOpenSuccessThreshold {
            state := Closed;
            consecutiveFailures := 0;
          } else {
            state := Open;
            RecordLastFailure(now);
          }
        }
    }

    method RecordFailure(now: int)
      modifies this
      ensures View() == Failed(config, old(View()), now)
    {
      RecordLastFailure(now);
      match state
      case Closed =>
        consecutiveFailures := consecutiveFailures + 1;
        if consecutiveFailures >= config.failureThreshold {
          state := Open;
        }
      case HalfOpen =>
        state := Open;
        halfOpenCalls := 0;
        halfOpenSuccesses := 0;
      case Open =>
    }

    /** `ok` is how the guarded future ends, should it be awaited. */
    method Call(start: int, ok: bool, end: int) returns (outcome: Outcome)
      modifies this
      ensures (View(), outcome) == Called(config, old(View()), start, ok, end)
      ensures outcome == Rejected || outcome == Passed(ok)
    {
      var current := CurrentState(start);
      match current {
        case Open =>
          return Rejected;
        case Closed =>
        case HalfOpen =>
          halfOpenCalls := halfOpenCalls + 1;
          if halfOpenCalls > config.halfOpenMaxCalls {
            halfOpenCalls := halfOpenCalls - 1;
            return Rejected;
          }
      }
      if ok {
        RecordSuccess(end);
      } else {
        RecordFailure(end);
      }
      return Passed(ok);
    }

    method Reset()
      modifies this
      ensures View() == Restarted(old(View()))
    {
      state := Closed;
      consecutiveFailures, consecutiveSuccesses := 0, 0;
      halfOpenCalls, halfOpenSuccesses := 0, 0;
    }
  }

  // ----- runs -----

  datatype Trace = Trace(states: seq<Breaker>, ops: seq<Op>)

  ghost predicate Run(config: Config, run: Trace) {
    && |run.states| == |run.ops| + 1 && run.states[0] == INITIAL
    && forall k {:trigger run.ops[k]} :: 0 <= k < |run.ops| ==>
        run.states[k + 1] == After(config, run.states[k], run.ops[k])
  }

  /** The outcomes of the calls made since the breaker last closed or was reset. */
  ghost function Outcomes(run: Trace, i: nat): seq<bool>
    requires i <= |run.ops| < |run.states|
  {
    if i == 0 || run.states[i - 1].state != Closed then []
    else
      match run.ops[i - 1]
      case Reset => []
      case Poll(_) => Outcomes(run, i - 1)
      case Call(_, ok, _) => Outcomes(run, i - 1) + [ok]
  }

  ghost predicate LastFailed(outcomes: seq<bool>, n: int) {
    0 <= n <= |outcomes| && forall k :: |outcomes| - n <= k < |outcomes| ==> !outcomes[k]
  }

  /** How many calls have failed since the last success. */
  ghost predicate FailuresInARow(outcomes: seq<bool>, n: int) {
    LastFailed(outcomes, n) && (n < |outcomes| ==> outcomes[|outcomes| - 1 - n])
  }

  /** Whether the breaker is on trial when the i-th operation looks at it. */
  ghost predicate OnTrial(config: Config, run: Trace, i: nat)
    requires i < |run.ops| < |run.states|
  {
    match run.ops[i]
    case Reset => false
    case Poll(now) => Observed(config, run.states[i], now).state == HalfOpen
    case Call(start, _, _) => Observed(config, run.states[i], start).state == HalfOpen
  }

  ghost predicate Admitted(config: Config, run: Trace, i: nat)
    requires i < |run.ops| < |run.states|
  {
    && run.ops[i].Call?
    && Called(config, run.states[i], run.ops[i].start, run.ops[i].ok, run.ops[i].end).1.Passed?
  }

  /** The outcomes of the calls admitted in the half-open window up to and including operation i - 1. */
  ghost function Trial(config: Config, run: Trace, i: nat): seq<bool>
    requires i <= |run.ops| < |run.states|
  {
    if i == 0 || !OnTrial(config, run, i - 1) then []
    else
      var before := if run.states[i - 1].state == HalfOpen then Trial(config, run, i - 1) else [];
      if Admitted(config, run, i - 1) then before + [run.ops[i - 1].ok] else before
  }

  /** When the last failing call before operation i ended that did not end before the epoch; zero if there is none. */
  ghost function LastFailure(config: Config, run: Trace, i: nat): int
    requires i <= |run.ops| < |run.states|
  {
    if i == 0 then 0
    else if Admitted(config, run, i - 1) && !run.ops[i - 1].ok && run.ops[i - 1].end >= 0 then run.ops[i - 1].end
    else LastFailure(config, run, i - 1)
  }

  ghost predicate AllTrue(s: seq<bool>) {
    forall k :: 0 <= k < |s| ==> s[k]
  }

  ghost predicate Tracks(config: Config, b: Breaker, outcomes: seq<bool>, trial: seq<bool>, last: int) {
    && (b.state == Closed ==> FailuresInARow(outcomes, b.failures) && b.failures < config.failureThreshold)
    && (b.state == HalfOpen ==> b.calls == b.successes == |trial| < config.halfOpenMaxCalls && AllTrue(trial))
    && b.lastFailure == last
    && 0 <= b.failures <= config.failureThreshold && 0 <= b.successes <= b.calls <= config.halfOpenMaxCalls
  }

  lemma AllSuccesses(n: int)
    requires n > 0
    ensures (n * 100) / n == 100
  {
  }

  /** The history grows with a call as the counters do. */
  lemma CallTracks(config: Config, b: Breaker, outcomes: seq<bool>, trial: seq<bool>, last: int, call: Op)
    requires Tracks(config, b, outcomes, trial, last) && call.Call?
    ensures var (b', outcome) := Called(config, b, call.start, call.ok, call.end);
            var onTrial := Observed(config, b, call.start).state == HalfOpen;
            Tracks(config, b',
                   if b.state == Closed then outcomes + [call.ok] else [],
                   if onTrial then (if b.state == HalfOpen then trial else []) + [call.ok] else [],
                   if outcome.Passed? && !call.ok && call.end >= 0 then call.end else last)
            && (outcome.Passed? <==> b.state == Closed || onTrial)
  {
    AllSuccesses(config.halfOpenMaxCalls);
  }

  lemma StepTracks(config: Config, run: Trace, i: nat)
    requires Run(config, run) && i < |run.ops|
    requires Tracks(config, run.states[i], Outcomes(run, i), Trial(config, run, i), LastFailure(config, run, i))
    ensures Tracks(config, run.states[i + 1], Outcomes(run, i + 1), Trial(config, run, i + 1),
        LastFailure(config, run, i + 1))
  {
    var b, op := run.states[i], run.ops[i];
    assert run.states[i + 1] == After(config, b, op);
    if op.Call? {
      CallTracks(config, b, Outcomes(run, i), Trial(config, run, i), LastFailure(config, run, i), op);
      hide Called, Tracks;
    }
  }

  /** The counters are, at every moment of every run, what the history says. */
  lemma {:induction false} CountersTrackHistory(config: Config, run: Trace, i: nat)
    requires Run(config, run) && i <= |run.ops|
    ensures Tracks(config, run.states[i], Outcomes(run, i), Trial(config, run, i), LastFailure(config, run, i))
  {
    if i > 0 {
      hide Tracks, Run;
      CountersTrackHistory(config, run, i - 1);
      StepTracks(config, run, i - 1);
    }
  }

  lemma StreakLength(outcomes: seq<bool>, n: int, m: int)
    requires FailuresInARow(outcomes, n) && m >= 0
    ensures LastFailed(outcomes, m) <==> m <= n
  {
    if n < m <= |outcomes| {
      assert outcomes[|outcomes| - 1 - n];
    }
  }

  /** A closed breaker opens exactly when the last `failureThreshold` calls since it closed all failed. */
  lemma OpensExactlyAtThreshold(config: Config, run: Trace, i: nat)
    requires Run(config, run) && i < |run.ops| && run.states[i].state == Closed
    ensures run.states[i + 1].state != Closed <==> LastFailed(Outcomes(run, i + 1), config.failureThreshold)
    ensures run.states[i + 1].state != HalfOpen
    ensures run.ops[i].Call? ==> Admitted(config, run, i)
  {
    CountersTrackHistory(config, run, i);
    var b, op := run.states[i], run.ops[i];
    assert run.states[i + 1] == After(config, b, op);
    var streak := if op.Call? then if op.ok then 0 else b.failures + 1 else if op.Poll? then b.failures else 0;
    assert FailuresInARow(Outcomes(run, i + 1), streak);
    StreakLength(Outcomes(run, i + 1), streak, config.failureThreshold);
  }

  /** An open breaker turns calls away exactly until the timeout has passed since the last failure. */
  lemma OpenUntilTimeout(config: Config, run: Trace, i: nat)
    requires Run(config, run) && i < |run.ops| && run.states[i].state == Open
    ensures run.ops[i].Call? ==>
              (Admitted(config, run, i) <==> TimedOut(config, LastFailure(config, run, i), run.ops[i].start))
    ensures run.ops[i].Poll? ==>
              (run.states[i + 1].state == HalfOpen <==> TimedOut(config, LastFailure(config, run, i), run.ops[i].now))
    ensures run.ops[i].Reset? || OnTrial(config, run, i) || run.states[i + 1] == run.states[i]
  {
    CountersTrackHistory(config, run, i);
    assert run.states[i + 1] == After(config, run.states[i], run.ops[i]);
  }

  /**
    In terms of the clock: an open breaker admits a call if and only if a failure was recorded after time zero and the
    call starts after the epoch and at least the timeout after it; or, without such a failure, if there is no timeout.
   */
  lemma OpenAdmitsExactly(config: Config, run: Trace, i: nat)
    requires Run(config, run) && i < |run.ops| && run.states[i].state == Open && run.ops[i].Call?
    ensures var failure, start := LastFailure(config, run, i), run.ops[i].start;
            Admitted(config, run, i) <==>
            if failure == 0 then config.timeout <= 0
            else start >= 0 && (config.timeout <= 0 || start >= failure + config.timeout)
  {
    OpenUntilTimeout(config, run, i);
    NonNegativeFailure(config, run, i);
  }

  lemma {:induction false} NonNegativeFailure(config: Config, run: Trace, i: nat)
    requires Run(config, run) && i <= |run.ops|
    ensures LastFailure(config, run, i) >= 0
  {
    if i > 0 {
      NonNegativeFailure(config, run, i - 1);
    }
  }

  /** A reset closes the breaker from any state and forgets its outcomes; the next call is admitted. */
  lemma ResetCloses(config: Config, run: Trace, i: nat)
    requires Run(config, run) && i < |run.ops| && run.ops[i].Reset?
    ensures run.states[i + 1].state == Closed && Outcomes(run, i + 1) == []
    ensures LastFailure(config, run, i + 1) == LastFailure(config, run, i)
    ensures i + 1 < |run.ops| && run.ops[i + 1].Call? ==> Admitted(config, run, i + 1)
  {
    assert run.states[i + 1] == After(config, run.states[i], run.ops[i]);
    if i + 1 < |run.ops| {
      OpensExactlyAtThreshold(config, run, i + 1);
    }
  }

  ghost predicate Early(config: Config, op: Op, failure: int) {
    match op
    case Reset => false
    case Poll(now) => !TimedOut(config, failure, now)
    case Call(start, _, _) => !TimedOut(config, failure, start)
  }

  /** Nothing but a reset gets an open breaker moving before the timeout, however many calls are attempted. */
  lemma {:induction false} StaysOpen(config: Config, run: Trace, i: nat, j: nat)
    requires Run(config, run) && i <= j <= |run.ops| && run.states[i].state == Open
    requires forall k :: i <= k < j ==> Early(config, run.ops[k], run.states[i].lastFailure)
    ensures run.states[j] == run.states[i] && LastFailure(config, run, j) == LastFailure(config, run, i)
    ensures LastFailure(config, run, i) == run.states[i].lastFailure
    ensures forall k :: i <= k < j ==> !Admitted(config, run, k)
  {
    CountersTrackHistory(config, run, i);
    if i < j {
      StaysOpen(config, run, i, j - 1);
      OpenUntilTimeout(config, run, j - 1);
      assert Early(config, run.ops[j - 1], run.states[i].lastFailure);
    }
  }

  /**
    A half-open window admits every call, reopens at the first failure and closes after exactly
    `halfOpenMaxCalls` successes; in between it stays half-open. Whatever the success threshold is.
   */
  lemma TrialDecides(config: Config, run: Trace, i: nat)
    requires Run(config, run) && i < |run.ops| && OnTrial(config, run, i)
    ensures run.ops[i].Call? ==> Admitted(config, run, i)
    ensures var trial, state := Trial(config, run, i + 1), run.states[i + 1].state;
            && |trial| <= config.halfOpenMaxCalls
            && (state == Open <==> trial != [] && !trial[|trial| - 1])
            && (state == Closed <==> |trial| == config.halfOpenMaxCalls && AllTrue(trial))
            && (forall k :: 0 <= k < |trial| - 1 ==> trial[k])
  {
    CountersTrackHistory(config, run, i);
    CountersTrackHistory(config, run, i + 1);
    assert run.states[i + 1] == After(config, run.states[i], run.ops[i]);
    AllSuccesses(config.halfOpenMaxCalls);
  }

  /** Without resets, an open breaker closes again only through a full half-open window of successes. */
  lemma {:induction false} ReclosesThroughTrial(config: Config, run: Trace, i: nat)
    requires Run(config, run) && i < |run.ops| && run.states[i].state != Closed && run.states[i + 1].state == Closed
    ensures run.ops[i].Reset? ||
            (OnTrial(config, run, i) && |Trial(config, run, i + 1)| == config.halfOpenMaxCalls
                && AllTrue(Trial(config, run, i + 1)))
    ensures Outcomes(run, i + 1) == []
  {
    assert run.states[i + 1] == After(config, run.states[i], run.ops[i]);
    if !run.ops[i].Reset? {
      if OnTrial(config, run, i) {
        TrialDecides(config, run, i);
      }
    }
  }

  /** Without a failure recorded after time zero the breaker stays open: however late it gets, only a reset helps. */
  lemma FailureAtTimeZero(config: Config, run: Trace, i: nat, now: int)
    requires Run(config, run) && i <= |run.ops| && run.states[i].state == Open
    requires LastFailure(config, run, i) == 0 && config.timeout > 0
    ensures After(config, run.states[i], Poll(now)) == run.states[i]
  {
    CountersTrackHistory(config, run, i);
  }

  /** Runs that come to that: one failing call, at time zero or before, opens a breaker with a threshold of one. */
  lemma FailureAtTimeZeroHappens(end: int) returns (config: Config, run: Trace)
    requires end <= 0
    ensures Run(config, run) && |run.ops| == 1 && run.states[1].state == Open && config.timeout > 0
    ensures LastFailure(config, run, 1) == 0
  {
    config := Settings(1, 60_000, 3, 67);
    var call := Op.Call(0, false, end);
    run := Trace([INITIAL, After(config, INITIAL, call)], [call]);
    assert run.ops[0] == call && Admitted(config, run, 0);
  }
}
