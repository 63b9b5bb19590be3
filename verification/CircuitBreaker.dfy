/** The circuit breaker. A call is two steps, because the protected function is awaited in
    between: `Begin` decides whether it runs, `Complete` records how it ended, and any number
    of other steps may come in between. */
module CircuitBreaker {

  datatype CircuitState = Closed | Open | HalfOpen

  datatype Options = Options(failureThreshold: int, resetTimeoutMs: int, halfOpenMaxSuccesses: int)

  datatype Record = Record(state: CircuitState, failures: nat, successes: nat, nextAttempt: int)

  const FRESH := Record(Closed, 0, 0, 0)

  // ---------- Steps on one record ----------

  predicate Admits(r: Record, now: int) {
    r.state != Open || now > r.nextAttempt
  }

  function BeginStep(r: Record, now: int): Record {
    if r.state == Open && now > r.nextAttempt then r.(state := HalfOpen, successes := 0) else r
  }

  /** `startedAt` is the clock reading of the call's own beginning. */
  function CompleteStep(o: Options, r: Record, ok: bool, startedAt: int): Record {
    if ok then
      match r.state
      case HalfOpen =>
        if r.successes + 1 >= o.halfOpenMaxSuccesses
        then r.(successes := r.successes + 1, state := Closed, failures := 0)
        else r.(successes := r.successes + 1)
      case Closed => r.(failures := 0)
      case Open => r
    else if r.failures + 1 >= o.failureThreshold || r.state == HalfOpen then
      r.(failures := r.failures + 1, state := Open, nextAttempt := startedAt + o.resetTimeoutMs)
    else r.(failures := r.failures + 1)
  }

  // ---------- The service ----------

  datatype Outcome = Result | FallbackResult | OpenError | FunctionError

  class CircuitBreakerService {
    var stateMap: map<string, Record>

    constructor ()
      ensures stateMap == map[]
    {
      stateMap := map[];
    }

    function RecordOf(key: string): Record
      reads this
    {
      if key in stateMap then stateMap[key] else FRESH
    }

    function GetState(key: string): CircuitState
      reads this
    {
      if key in stateMap then stateMap[key].state else Closed
    }

    /** From the call to the await. */
    method Begin(key: string, now: int) returns (admitted: bool)
      modifies this
      ensures admitted == Admits(old(RecordOf(key)), now)
      ensures stateMap == old(stateMap)[key := BeginStep(old(RecordOf(key)), now)]
    {
      if key !in stateMap {
        stateMap := stateMap[key := Record(Closed, 0, 0, 0)];
      }
      if stateMap[key].state == Open {
        if now > stateMap[key].nextAttempt {
          stateMap := stateMap[key := stateMap[key].(state := HalfOpen, successes := 0)];
        } else {
          return false;
        }
      }
      return true;
    }

    /** From the settled promise to the result, in whatever state the record is by then. */
    method Complete(key: string, ok: bool, startedAt: int, o: Options)
      requires key in stateMap
      modifies this
      ensures stateMap == old(stateMap)[key := CompleteStep(o, old(stateMap)[key], ok, startedAt)]
    {
      var record := stateMap[key];
      if ok {
        if record.state == HalfOpen {
          record := record.(successes := record.successes + 1);
          if record.successes >= o.halfOpenMaxSuccesses {
            record := record.(state := Closed, failures := 0);
          }
        } else if record.state == Closed {
          record := record.(failures := 0);
        }
      } else {
        record := record.(failures := record.failures + 1);
        if record.failures >= o.failureThreshold || record.state == HalfOpen {
          record := record.(state := Open, nextAttempt := startedAt + o.resetTimeoutMs);
        }
      }
      stateMap := stateMap[key := record];
    }

    /** A call that nothing overlaps; `ok` is how the function ends if it runs. */
    method Execute(key: string, now: int, ok: bool, hasFallback: bool, o: Options) returns (ran: bool, outcome: Outcome)
      modifies this
      ensures (RecordOf(key), ran) == Call(o, old(RecordOf(key)), now, ok)
      ensures forall k :: k != key ==> RecordOf(k) == old(RecordOf(k)) && (k in stateMap <==> k in old(stateMap))
      ensures outcome ==
        if ran && ok then Result else if hasFallback then FallbackResult else if ran then FunctionError else OpenError
    {
      ran := Begin(key, now);
      if !ran {
        return false, if hasFallback then FallbackResult else OpenError;
      }
      Complete(key, ok, now, o);
      return true, if ok then Result else if hasFallback then FallbackResult else FunctionError;
    }
  }

  // ---------- Overlapping calls ----------

  /** Step `Completed` may come from a call that began at any time, in any state. */
  datatype Step = Began(now: int) | Completed(ok: bool, startedAt: int)

  function Next(o: Options, r: Record, step: Step): Record {
    match step
    case Began(now) => BeginStep(r, now)
    case Completed(ok, startedAt) => CompleteStep(o, r, ok, startedAt)
  }

  function After(o: Options, steps: seq<Step>): Record {
    if steps == [] then FRESH else Next(o, After(o, steps[..|steps| - 1]), steps[|steps| - 1])
  }

  lemma AfterOneMore(o: Options, steps: seq<Step>, step: Step)
    ensures After(o, steps + [step]) == Next(o, After(o, steps), step)
  {
    assert (steps + [step])[..|steps|] == steps;
  }

  predicate Sane(o: Options) {
    o.failureThreshold >= 1 && o.halfOpenMaxSuccesses >= 1
  }

  /** In every interleaving of overlapping calls the breaker is closed exactly while its failure
      count is below the threshold, and a half-open breaker still owes successes. */
  lemma {:induction false} StateMatchesCounters(o: Options, steps: seq<Step>)
    requires Sane(o)
    ensures var r := After(o, steps);
      && (r.state == Closed <==> r.failures < o.failureThreshold)
      && (r.state == HalfOpen ==> r.successes < o.halfOpenMaxSuccesses)
    decreases |steps|
  {
    if steps == [] {
    } else {
      StateMatchesCounters(o, steps[..|steps| - 1]);
    }
  }

  predicate IsFailure(step: Step) {
    step.Completed? && !step.ok
  }

  predicate LastFailure(steps: seq<Step>, k: nat) {
    k < |steps| && IsFailure(steps[k]) && forall j :: k < j < |steps| ==> !IsFailure(steps[j])
  }

  /** In every interleaving an open breaker waits from the beginning of the call whose failure
      came in last, not of the failing call that began last. */
  lemma {:induction false} OpenSinceLastFailure(o: Options, steps: seq<Step>) returns (k: nat)
    requires Sane(o) && After(o, steps).state == Open
    ensures LastFailure(steps, k) && After(o, steps).nextAttempt == steps[k].startedAt + o.resetTimeoutMs
    decreases |steps|
  {
    if steps == [] {
      assert false;
    } else {
      var rest, last := steps[..|steps| - 1], steps[|steps| - 1];
      StateMatchesCounters(o, rest);
      if IsFailure(last) {
        k := |rest|;
      } else {
        k := OpenSinceLastFailure(o, rest);
      }
    }
  }

  /** So one more failure shortens the wait exactly when its call began before that one did. */
  lemma LateFailureExact(o: Options, steps: seq<Step>, k: nat, startedAt: int)
    requires Sane(o) && After(o, steps).state == Open && LastFailure(steps, k)
    ensures var r, next := After(o, steps), After(o, steps + [Completed(false, startedAt)]);
      && next.state == Open && next.nextAttempt == startedAt + o.resetTimeoutMs
      && (next.nextAttempt < r.nextAttempt <==> startedAt < steps[k].startedAt)
  {
    AfterOneMore(o, steps, Completed(false, startedAt));
    StateMatchesCounters(o, steps);
    var last := OpenSinceLastFailure(o, steps);
    assert last == k;
  }

  /** A call is refused exactly while the breaker is open and no later than the reset time after
      the beginning of that call. */
  lemma RefusedExact(o: Options, steps: seq<Step>, now: int)
    requires Sane(o)
    ensures !Admits(After(o, steps), now) <==>
      After(o, steps).state == Open
      && exists k :: 0 <= k < |steps| && LastFailure(steps, k) && now <= steps[k].startedAt + o.resetTimeoutMs
  {
    if After(o, steps).state == Open {
      var k := OpenSinceLastFailure(o, steps);
      assert forall j :: 0 <= j < |steps| && LastFailure(steps, j) ==> j == k;
    }
  }

  // ---------- Every change of state, in every interleaving ----------

  /** The failing completions since the last successful one. */
  function FailuresInRow(steps: seq<Step>): nat {
    if steps == [] then 0
    else
      var rest := FailuresInRow(steps[..|steps| - 1]);
      match steps[|steps| - 1]
      case Began(_) => rest
      case Completed(ok, _) => if ok then 0 else rest + 1
  }

  function Successes(steps: seq<Step>): nat {
    if steps == [] then 0
    else Successes(steps[..|steps| - 1]) + if steps[|steps| - 1].Completed? && steps[|steps| - 1].ok then 1 else 0
  }

  /** A closed breaker counts the failures since the last success, whichever calls they end. */
  lemma {:induction false} ClosedCountsFailures(o: Options, steps: seq<Step>)
    requires Sane(o) && After(o, steps).state == Closed
    ensures After(o, steps).failures == FailuresInRow(steps) < o.failureThreshold
    decreases |steps|
  {
    StateMatchesCounters(o, steps);
    if steps == [] {
    } else {
      var rest := steps[..|steps| - 1];
      if After(o, rest).state == Closed {
        ClosedCountsFailures(o, rest);
      }
    }
  }

  /** Step `k` opened the breaker halfway, after its wait, and it has been half-open since. */
  predicate HalfwaySince(o: Options, steps: seq<Step>, k: nat) {
    && k < |steps| && steps[k].Began?
    && After(o, steps[..k]).state == Open && steps[k].now > After(o, steps[..k]).nextAttempt
    && forall j :: k < j <= |steps| ==> After(o, steps[..j]).state == HalfOpen
  }

  /** A half-open breaker was opened halfway by the beginning of a call after the wait, has been
      half-open since, and counts the successes since. */
  lemma {:induction false} HalfOpenSince(o: Options, steps: seq<Step>) returns (k: nat)
    requires Sane(o) && After(o, steps).state == HalfOpen
    ensures HalfwaySince(o, steps, k)
    ensures After(o, steps).successes == Successes(steps[k + 1..]) < o.halfOpenMaxSuccesses
    decreases |steps|
  {
    StateMatchesCounters(o, steps);
    if steps == [] {
      assert false;
    } else {
      var rest, last := steps[..|steps| - 1], steps[|steps| - 1];
      assert steps[..|steps|] == steps;
      if After(o, rest).state == HalfOpen {
        k := HalfOpenSince(o, rest);
        assert forall j :: 0 <= j <= |rest| ==> rest[..j] == steps[..j];
        assert steps[k + 1..][..|steps[k + 1..]| - 1] == rest[k + 1..];
      } else {
        k := |rest|;
      }
    }
  }

  /** The next state, from the history alone. An open breaker moves only when a call begins after the
      wait, and only halfway; a half-open one opens again on any failure and closes on the last of
      the successes it needs; a closed one opens on the last of the failures in a row it bears. */
  lemma NextStateExact(o: Options, steps: seq<Step>, step: Step)
    requires Sane(o)
    ensures var r, next := After(o, steps), After(o, steps + [step]);
      && (r.state == Open ==>
            next.state == (if step.Began? && step.now > r.nextAttempt then HalfOpen else Open))
      && (r.state == Closed ==>
            next.state == (if IsFailure(step) && FailuresInRow(steps) + 1 >= o.failureThreshold then Open else Closed))
      && (r.state == HalfOpen ==>
            exists k ::
              && 0 <= k < |steps| && HalfwaySince(o, steps, k)
              && next.state == if step.Began? then HalfOpen else if !step.ok then Open
                               else if Successes(steps[k + 1..]) + 1 < o.halfOpenMaxSuccesses then HalfOpen
                               else Closed)
  {
    AfterOneMore(o, steps, step);
    var r := After(o, steps);
    if r.state == Closed {
      ClosedCountsFailures(o, steps);
    }
    if r.state == HalfOpen {
      var k := HalfOpenSince(o, steps);
      assert HalfwaySince(o, steps, k);
    }
    if r.state == Open {
      StateMatchesCounters(o, steps);
    }
  }

  /** Which happens: of two overlapping calls the later one fails first. */
  lemma StaleFailureShortensWait()
    ensures var o := Options(1, 10000, 2);
      var steps := [Began(0)] + [Began(5000)] + [Completed(false, 5000)];
      && After(o, steps) == Record(Open, 1, 0, 15000)
      && After(o, steps + [Completed(false, 0)]) == Record(Open, 2, 0, 10000)
  {
    var o := Options(1, 10000, 2);
    AfterOneMore(o, [], Began(0));
    AfterOneMore(o, [Began(0)], Began(5000));
    AfterOneMore(o, [Began(0)] + [Began(5000)], Completed(false, 5000));
    AfterOneMore(o, [Began(0)] + [Began(5000)] + [Completed(false, 5000)], Completed(false, 0));
  }

  // ---------- Calls one after another ----------

  /** One call that nothing overlaps: the record behind it, and whether the function ran. */
  function Call(o: Options, r: Record, now: int, ok: bool): (Record, bool) {
    if Admits(r, now) then (CompleteStep(o, BeginStep(r, now), ok, now), true) else (r, false)
  }

  datatype Attempt = Attempt(now: int, ok: bool)

  /** The record after a sequence of calls, and the calls whose function ran. */
  function Serial(o: Options, calls: seq<Attempt>): (Record, seq<Attempt>) {
    if calls == [] then (FRESH, [])
    else
      var (r, ran) := Serial(o, calls[..|calls| - 1]);
      var last := calls[|calls| - 1];
      var (r', runs) := Call(o, r, last.now, last.ok);
      (r', if runs then ran + [last] else ran)
  }

  // The history specification reads only the list of runs that took place.

  predicate AllFail(log: seq<Attempt>, from: nat, to: nat) {
    from <= to <= |log| && forall i :: from <= i < to ==> !log[i].ok
  }

  predicate AllSucceed(log: seq<Attempt>, from: nat, to: nat) {
    from <= to <= |log| && forall i :: from <= i < to ==> log[i].ok
  }

  predicate FailureRun(o: Options, log: seq<Attempt>, end: nat) {
    0 <= end - o.failureThreshold && AllFail(log, end - o.failureThreshold, end)
  }

  predicate SuccessRun(o: Options, log: seq<Attempt>, start: nat) {
    0 <= start + o.halfOpenMaxSuccesses && AllSucceed(log, start, start + o.halfOpenMaxSuccesses)
  }

  predicate TrippedAt(o: Options, log: seq<Attempt>, end: nat) {
    FailureRun(o, log, end) && forall i :: end <= i <= |log| ==> !SuccessRun(o, log, i)
  }

  /** The runs contain `failureThreshold` failures in a row with no `halfOpenMaxSuccesses`
      successes in a row after them. */
  predicate Tripped(o: Options, log: seq<Attempt>) {
    exists end :: 0 <= end <= |log| && TrippedAt(o, log, end)
  }

  /** How many runs at the end of the log ended alike. */
  function Trailing(log: seq<Attempt>, ok: bool): (n: nat)
    ensures n <= |log| && (if ok then AllSucceed(log, |log| - n, |log|) else AllFail(log, |log| - n, |log|))
    ensures n < |log| ==> log[|log| - n - 1].ok != ok
  {
    if log == [] || log[|log| - 1].ok != ok then 0 else 1 + Trailing(log[..|log| - 1], ok)
  }

  /** What the record says about the log of runs. */
  predicate Refines(o: Options, r: Record, log: seq<Attempt>) {
    && (r.state == Closed <==> !Tripped(o, log))
    && (r.state == Closed ==> r.failures == Trailing(log, false) < o.failureThreshold)
    && (r.state != Closed ==>
          && r.failures >= o.failureThreshold
          && Trailing(log, true) < o.halfOpenMaxSuccesses && Trailing(log, true) < |log|
          && r.nextAttempt == log[|log| - Trailing(log, true) - 1].now + o.resetTimeoutMs)
    && (r.state == Open ==> Trailing(log, true) == 0)
    && (r.state == HalfOpen ==> r.successes == Trailing(log, true) > 0)
  }

  /** When a call may run, from the history alone: the breaker is not tripped, or a success has
      followed the last failure, or that failure's call began more than `resetTimeoutMs` ago. */
  predicate MayRun(o: Options, log: seq<Attempt>, now: int) {
    || !Tripped(o, log)
    || Trailing(log, true) > 0
    || (log != [] && now > log[|log| - 1].now + o.resetTimeoutMs)
  }

  /** Runs that end within the history are not affected by what comes after. */
  lemma RunsWithin(o: Options, log: seq<Attempt>, last: Attempt)
    ensures forall end: nat :: end <= |log| ==> FailureRun(o, log + [last], end) == FailureRun(o, log, end)
    ensures forall i: nat :: i + o.halfOpenMaxSuccesses <= |log| ==>
      SuccessRun(o, log + [last], i) == SuccessRun(o, log, i)
  {
    assert forall k :: 0 <= k < |log| ==> (log + [last])[k] == log[k];
  }

  /** A trip before the last run was one without that run too. */
  lemma TrippedBefore(o: Options, log: seq<Attempt>, last: Attempt, end: nat)
    requires Sane(o) && end <= |log| && TrippedAt(o, log + [last], end)
    ensures TrippedAt(o, log, end)
  {
    RunsWithin(o, log, last);
    forall i: nat | end <= i <= |log| ensures !SuccessRun(o, log, i) {
      if i + o.halfOpenMaxSuccesses <= |log| {
        assert SuccessRun(o, log + [last], i) == SuccessRun(o, log, i);
      }
    }
  }

  /** And it stays one unless the run completes a row of successes. */
  lemma TrippedAfter(o: Options, log: seq<Attempt>, last: Attempt, end: nat)
    requires Sane(o) && end <= |log| && TrippedAt(o, log, end)
    requires last.ok ==> Trailing(log + [last], true) < o.halfOpenMaxSuccesses
    ensures TrippedAt(o, log + [last], end)
  {
    var more := log + [last];
    RunsWithin(o, log, last);
    forall i: nat | end <= i <= |more| ensures !SuccessRun(o, more, i) {
      if i + o.halfOpenMaxSuccesses <= |log| {
        assert SuccessRun(o, more, i) == SuccessRun(o, log, i);
      } else if SuccessRun(o, more, i) {
        RowAtEnd(o, more, i);
        assert false;
      }
    }
  }

  lemma RowAtEnd(o: Options, log: seq<Attempt>, i: nat)
    requires Sane(o) && SuccessRun(o, log, i) && i + o.halfOpenMaxSuccesses == |log|
    ensures log[|log| - 1].ok && Trailing(log, true) >= o.halfOpenMaxSuccesses
  {
    FullRow(log, true, o.halfOpenMaxSuccesses);
  }

  lemma FullRow(log: seq<Attempt>, ok: bool, n: nat)
    requires n <= |log| && forall i :: |log| - n <= i < |log| ==> log[i].ok == ok
    ensures n <= Trailing(log, ok)
  {
  }

  /** A failing run trips a closed breaker exactly when it completes a row of failures, and
      never closes an open one. */
  lemma FailureTrips(o: Options, log: seq<Attempt>, last: Attempt)
    requires Sane(o) && !last.ok
    ensures Tripped(o, log + [last]) <==> Tripped(o, log) || Trailing(log + [last], false) >= o.failureThreshold
  {
    var more := log + [last];
    if end: nat :| end <= |log| && TrippedAt(o, log, end) {
      TrippedAfter(o, log, last, end);
    }
    if Trailing(more, false) >= o.failureThreshold {
      assert TrippedAt(o, more, |more|);
    }
    if end: nat :| end <= |more| && TrippedAt(o, more, end) {
      if end <= |log| {
        TrippedBefore(o, log, last, end);
      } else {
        FailuresAtEnd(o, more);
      }
    }
  }

  lemma FailuresAtEnd(o: Options, log: seq<Attempt>)
    requires Sane(o) && FailureRun(o, log, |log|)
    ensures Trailing(log, false) >= o.failureThreshold
  {
    FullRow(log, false, o.failureThreshold);
  }

  lemma RunEndsInFailure(o: Options, log: seq<Attempt>, end: nat)
    requires Sane(o) && end <= |log| && FailureRun(o, log, end)
    ensures end > 0 && !log[end - 1].ok
  {
  }

  /** A successful run closes a tripped breaker exactly when it completes a row of successes. */
  lemma SuccessRecovers(o: Options, log: seq<Attempt>, last: Attempt)
    requires Sane(o) && last.ok
    ensures Tripped(o, log + [last]) <==> Tripped(o, log) && Trailing(log + [last], true) < o.halfOpenMaxSuccesses
  {
    var more := log + [last];
    if end: nat :| end <= |log| && TrippedAt(o, log, end) {
      if Trailing(more, true) < o.halfOpenMaxSuccesses {
        TrippedAfter(o, log, last, end);
      }
    }
    if end: nat :| end <= |more| && TrippedAt(o, more, end) {
      if end == |more| {
        RunEndsInFailure(o, more, end);
        assert false;
      }
      TrippedBefore(o, log, last, end);
      if Trailing(more, true) >= o.halfOpenMaxSuccesses {
        RowBehindTrip(o, more, end);
      }
    }
  }

  /** A tripped history does not end in a full row of successes. */
  lemma RowBehindTrip(o: Options, log: seq<Attempt>, end: nat)
    requires Sane(o) && end <= |log| && TrippedAt(o, log, end)
    ensures Trailing(log, true) < o.halfOpenMaxSuccesses
  {
    if Trailing(log, true) >= o.halfOpenMaxSuccesses {
      var i := |log| - o.halfOpenMaxSuccesses;
      RunEndsInFailure(o, log, end);
      assert SuccessRun(o, log, i);
      assert false;
    }
  }

  lemma CallRefines(o: Options, r: Record, log: seq<Attempt>, last: Attempt)
    requires Sane(o) && Refines(o, r, log)
    ensures Admits(r, last.now) <==> MayRun(o, log, last.now)
    ensures Admits(r, last.now) ==> Refines(o, Call(o, r, last.now, last.ok).0, log + [last])
  {
    hide Tripped;
    var more := log + [last];
    assert more[..|more| - 1] == log;
    assert Trailing(more, last.ok) == 1 + Trailing(log, last.ok) && Trailing(more, !last.ok) == 0;
    if last.ok {
      SuccessRecovers(o, log, last);
    } else {
      FailureTrips(o, log, last);
    }
  }

  /** For calls that do not overlap, the breaker is exactly the history specification: it is
      closed unless tripped, and a further call runs precisely when the history allows it. */
  lemma {:induction false} SerialRefinesHistory(o: Options, calls: seq<Attempt>, now: int)
    requires Sane(o)
    ensures var (r, log) := Serial(o, calls);
      && Refines(o, r, log)
      && (r.state == Closed <==> !Tripped(o, log))
      && (Admits(r, now) <==> MayRun(o, log, now))
    decreases |calls|
  {
    if calls == [] {
    } else {
      var last := calls[|calls| - 1];
      SerialRefinesHistory(o, calls[..|calls| - 1], last.now);
      var (r, log) := Serial(o, calls[..|calls| - 1]);
      CallRefines(o, r, log, last);
    }
    var (r', log') := Serial(o, calls);
    CallRefines(o, r', log', Attempt(now, true));
  }
}
