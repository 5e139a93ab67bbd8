/** The three-state circuit breaker. Every lock-protected body is one event; the
    clock reading it takes is part of the event. Runs are arbitrary sequences of
    events, so reports of calls admitted long ago may arrive at any time. */
module CircuitBreaking {

  datatype State = Closed | Open | HalfOpen

  datatype Config = Config(failureThreshold: int, recoveryTimeout: int, successThreshold: int)

  datatype Breaker = Breaker(
    config: Config,
    state: State,
    failureCount: int,
    successCount: int,
    lastFailureTime: real)

  datatype Event =
    | Ask(now: real)
    | Success
    | Failure(now: real)
    | Reset
    | Configure(config: Config)

  function Fresh(config: Config): Breaker {
    Breaker(config, Closed, 0, 0, 0.0)
  }

  /** Whether a call asking at `now` is admitted. */
  predicate Admits(b: Breaker, now: real) {
    b.state == Open ==> now - b.lastFailureTime > b.config.recoveryTimeout as real
  }

  function Step(b: Breaker, e: Event): Breaker {
    match e
    case Ask(now) =>
      if b.state == Open && Admits(b, now) then b.(state := HalfOpen, successCount := 0) else b
    case Success =>
      if b.state != HalfOpen then b.(failureCount := 0)
      else if b.successCount + 1 >= b.config.successThreshold then
        b.(state := Closed, failureCount := 0, successCount := 0)
      else b.(successCount := b.successCount + 1)
    case Failure(now) =>
      var b' := b.(failureCount := b.failureCount + 1, lastFailureTime := now);
      if b.state == Closed && b'.failureCount >= b.config.failureThreshold then b'.(state := Open)
      else if b.state == HalfOpen then b'.(state := Open, successCount := 0)
      else b'
    case Reset => b.(state := Closed, failureCount := 0, successCount := 0)
    case Configure(config) => b.(config := config)
  }

  function Run(b: Breaker, es: seq<Event>): Breaker {
    if es == [] then b else Step(Run(b, es[..|es| - 1]), es[|es| - 1])
  }

  /** The mutable breaker of the service; each method is one event of `Step`. */
  class CircuitBreaker {
    var config: Config
    var state: State
    var failureCount: int
    var successCount: int
    var lastFailureTime: real

    function Value(): Breaker
      reads this
    {
      Breaker(config, state, failureCount, successCount, lastFailureTime)
    }

    constructor (config: Config)
      ensures Value() == Fresh(config)
    {
      this.config := config;
      state, failureCount, successCount, lastFailureTime := Closed, 0, 0, 0.0;
    }

    method CanExecute(now: real) returns (admitted: bool)
      modifies this
      ensures admitted == Admits(old(Value()), now)
      ensures Value() == Step(old(Value()), Ask(now))
    {
      if state == Open {
        if now - lastFailureTime > config.recoveryTimeout as real {
          state := HalfOpen;
          successCount := 0;
          return true;
        }
        return false;
      }
      return true;
    }

    method OnSuccess()
      modifies this
      ensures Value() == Step(old(Value()), Success)
    {
      if state == HalfOpen {
        successCount := successCount + 1;
        if successCount >= config.successThreshold {
          state := Closed;
          failureCount := 0;
          successCount := 0;
        }
      } else {
        failureCount := 0;
      }
    }

    method OnFailure(now: real)
      modifies this
      ensures Value() == Step(old(Value()), Failure(now))
    {
      failureCount := failureCount + 1;
      lastFailureTime := now;
      if state == Closed && failureCount >= config.failureThreshold {
        state := Open;
      } else if state == HalfOpen {
        state := Open;
        successCount := 0;
      }
    }

    method ResetBreaker()
      modifies this
      ensures Value() == Step(old(Value()), Reset)
    {
      state := Closed;
      failureCount := 0;
      successCount := 0;
    }

    method Reconfigure(config: Config)
      modifies this
      ensures Value() == Step(old(Value()), Configure(config))
    {
      this.config := config;
    }
  }

  // ---------------------------------------------------------------------------
  // A reference that keeps no counters: it looks back through the history
  // ---------------------------------------------------------------------------

  /** The configuration in force after `es`. */
  function ConfigAfter(config: Config, es: seq<Event>): Config {
    if es == [] then config
    else if es[|es| - 1].Configure? then es[|es| - 1].config
    else ConfigAfter(config, es[..|es| - 1])
  }

  /** Failures reported since the latest success or manual reset. */
  function FailureStreak(es: seq<Event>): nat {
    if es == [] || es[|es| - 1].Success? || es[|es| - 1].Reset? then 0
    else FailureStreak(es[..|es| - 1]) + if es[|es| - 1].Failure? then 1 else 0
  }

  function Successes(es: seq<Event>): nat {
    if es == [] then 0 else Successes(es[..|es| - 1]) + if es[|es| - 1].Success? then 1 else 0
  }

  /** `now` is more than `timeout` after every failure in `es`. */
  predicate CooledDown(es: seq<Event>, now: real, timeout: int) {
    forall k :: 0 <= k < |es| && es[k].Failure? ==> now - es[k].now > timeout as real
  }

  predicate Timed(e: Event) {
    e.Ask? || e.Failure?
  }

  predicate Monotone(es: seq<Event>) {
    forall i, j :: 0 <= i < j < |es| && Timed(es[i]) && Timed(es[j]) ==> es[i].now <= es[j].now
  }

  /** The state after `es`, and the length of the prefix after which it was entered. */
  datatype Phase = Phase(state: State, since: nat)

  function PhaseAfter(config: Config, es: seq<Event>): (p: Phase)
    ensures p.since <= |es|
  {
    if es == [] then Phase(Closed, 0) else
    var before := es[..|es| - 1];
    NextPhase(PhaseAfter(config, before), ConfigAfter(config, before), before, es[|es| - 1])
  }

  function NextPhase(p: Phase, config: Config, before: seq<Event>, e: Event): (p': Phase)
    requires p.since <= |before|
    ensures p'.since <= |before| + 1
    ensures p'.since == |before| + 1 || p' == p
  {
    var since := |before| + 1;
    match p.state
    case Closed =>
      if e.Failure? && FailureStreak(before) + 1 >= config.failureThreshold then Phase(Open, since) else p
    case Open =>
      if e.Ask? && CooledDown(before, e.now, config.recoveryTimeout) then Phase(HalfOpen, since)
      else if e.Reset? then Phase(Closed, since)
      else p
    case HalfOpen =>
      if e.Failure? then Phase(Open, since)
      else if e.Success? && Successes(before[p.since..]) + 1 >= config.successThreshold then Phase(Closed, since)
      else if e.Reset? then Phase(Closed, since)
      else p
  }

  /** The reference functions on a history extended by one event. */
  lemma Snoc(config: Config, es: seq<Event>, e: Event)
    ensures PhaseAfter(config, es + [e]) == NextPhase(PhaseAfter(config, es), ConfigAfter(config, es), es, e)
    ensures ConfigAfter(config, es + [e]) == if e.Configure? then e.config else ConfigAfter(config, es)
    ensures FailureStreak(es + [e]) ==
            if e.Success? || e.Reset? then 0 else FailureStreak(es) + if e.Failure? then 1 else 0
    ensures forall since :: 0 <= since <= |es| ==>
              Successes((es + [e])[since..]) == Successes(es[since..]) + if e.Success? then 1 else 0
  {
    var es' := es + [e];
    assert es'[..|es|] == es;
    forall since | 0 <= since <= |es|
      ensures Successes(es'[since..]) == Successes(es[since..]) + if e.Success? then 1 else 0
    {
      assert es'[since..][..|es| - since] == es[since..];
    }
  }

  // ---------------------------------------------------------------------------
  // The counters refine the reference
  // ---------------------------------------------------------------------------

  predicate HasFailure(es: seq<Event>) {
    exists k :: 0 <= k < |es| && es[k].Failure?
  }

  /** `t` is the time of the latest failure in `es`. */
  predicate LatestFailure(es: seq<Event>, t: real) {
    HasFailure(es) ==>
      exists k :: 0 <= k < |es| && es[k].Failure? && es[k].now == t
               && forall j :: k < j < |es| ==> !es[j].Failure?
  }

  /** The failure time the breaker keeps is the latest one in the history. */
  ghost predicate TimeAgrees(b: Breaker, es: seq<Event>) {
    LatestFailure(es, b.lastFailureTime) && (b.state == Open ==> HasFailure(es))
  }

  ghost predicate CountsAgree(b: Breaker, config: Config, es: seq<Event>) {
    var p := PhaseAfter(config, es);
    && b.config == ConfigAfter(config, es)
    && b.state == p.state
    && (b.state == Closed ==> b.failureCount == FailureStreak(es))
    && b.successCount == if b.state == HalfOpen then Successes(es[p.since..]) else 0
  }

  lemma LatestFailureStep(es: seq<Event>, t: real, e: Event)
    requires LatestFailure(es, t)
    ensures HasFailure(es) || e.Failure? ==> HasFailure(es + [e])
    ensures LatestFailure(es + [e], if e.Failure? then e.now else t)
  {
    var es' := es + [e];
    if e.Failure? {
      assert es'[|es|] == e;
    } else if HasFailure(es') {
      var k :| 0 <= k < |es'| && es'[k].Failure?;
      assert es[k].Failure?;
      var m :| 0 <= m < |es| && es[m].Failure? && es[m].now == t && forall j :: m < j < |es| ==> !es[j].Failure?;
      assert es'[m] == es[m];
    }
    if HasFailure(es) {
      var k :| 0 <= k < |es| && es[k].Failure?;
      assert es'[k].Failure?;
    }
  }

  /** Under a monotone clock, the latest failure is the one to wait for. */
  lemma CooledDownIsLatest(es: seq<Event>, t: real, now: real, timeout: int)
    requires Monotone(es) && LatestFailure(es, t) && HasFailure(es)
    ensures CooledDown(es, now, timeout) <==> now - t > timeout as real
  {
    var m :| 0 <= m < |es| && es[m].Failure? && es[m].now == t && forall j :: m < j < |es| ==> !es[j].Failure?;
    forall k | 0 <= k < |es| && es[k].Failure?
      ensures es[k].now <= t
    {
      assert k <= m;
    }
  }

  lemma CountsStep(b: Breaker, config: Config, es: seq<Event>, e: Event)
    requires CountsAgree(b, config, es)
    requires e.Ask? && b.state == Open ==> (Admits(b, e.now) <==> CooledDown(es, e.now, b.config.recoveryTimeout))
    ensures CountsAgree(Step(b, e), config, es + [e])
  {
    Snoc(config, es, e);
    assert (es + [e])[|es| + 1..] == [];
  }

  /** In every run, with resets, reconfigurations and late reports anywhere, the
      counting breaker is in the state its history says it should be in. */
  lemma {:induction false} CountersRefineHistory(config: Config, es: seq<Event>)
    requires Monotone(es)
    ensures TimeAgrees(Run(Fresh(config), es), es)
    ensures CountsAgree(Run(Fresh(config), es), config, es)
  {
    if es != [] {
      var before, e := es[..|es| - 1], es[|es| - 1];
      assert before + [e] == es;
      MonotonePrefix(before, e);
      CountersRefineHistory(config, before);
      var b := Run(Fresh(config), before);
      LatestFailureStep(before, b.lastFailureTime, e);
      if e.Ask? && b.state == Open {
        CooledDownIsLatest(before, b.lastFailureTime, e.now, b.config.recoveryTimeout);
      }
      CountsStep(b, config, before, e);
    }
  }

  // ---------------------------------------------------------------------------
  // What a caller sees
  // ---------------------------------------------------------------------------

  /** A call asking while the breaker is open is admitted exactly when more than
      the timeout has passed since every failure reported before it; so the first
      call admitted after an opening comes more than the timeout after them all. */
  lemma AdmittedOnlyAfterCoolDown(config: Config, es: seq<Event>, now: real)
    requires Monotone(es)
    ensures var b := Run(Fresh(config), es);
            Admits(b, now) <==> b.state != Open || CooledDown(es, now, ConfigAfter(config, es).recoveryTimeout)
  {
    CountersRefineHistory(config, es);
    var b := Run(Fresh(config), es);
    if b.state == Open {
      CooledDownIsLatest(es, b.lastFailureTime, now, b.config.recoveryTimeout);
    }
  }

  /** Nothing but an admitted call or a manual reset ends an opening. */
  lemma {:induction false} StaysOpen(config: Config, es: seq<Event>, i: nat, j: nat)
    requires i <= j <= |es|
    requires Run(Fresh(config), es[..i]).state == Open
    requires forall k :: i <= k < j ==> !es[k].Reset?
    requires forall k :: i <= k < j && es[k].Ask? ==> !Admits(Run(Fresh(config), es[..k]), es[k].now)
    ensures Run(Fresh(config), es[..j]).state == Open
    decreases j
  {
    if i < j {
      StaysOpen(config, es, i, j - 1);
      assert es[..j][..j - 1] == es[..j - 1];
    }
  }

  /** The first call admitted after the breaker opened comes more than the timeout
      after every failure reported before that call, including late ones. */
  lemma FirstAdmissionAfterOpening(config: Config, es: seq<Event>, i: nat, j: nat)
    requires Monotone(es)
    requires i <= j < |es| && es[j].Ask?
    requires Run(Fresh(config), es[..i]).state == Open
    requires forall k :: i <= k < j ==> !es[k].Reset?
    requires forall k :: i <= k < j && es[k].Ask? ==> !Admits(Run(Fresh(config), es[..k]), es[k].now)
    requires Admits(Run(Fresh(config), es[..j]), es[j].now)
    ensures forall k :: 0 <= k < j && es[k].Failure? ==>
              es[j].now - es[k].now > ConfigAfter(config, es[..j]).recoveryTimeout as real
  {
    StaysOpen(config, es, i, j);
    AdmittedOnlyAfterCoolDown(config, es[..j], es[j].now);
    forall k | 0 <= k < j && es[k].Failure?
      ensures es[j].now - es[k].now > ConfigAfter(config, es[..j]).recoveryTimeout as real
    {
      assert es[..j][k] == es[k];
    }
  }

  predicate NoConfigure(es: seq<Event>) {
    forall k :: 0 <= k < |es| ==> !es[k].Configure?
  }

  lemma {:induction false} ConfigFixed(config: Config, es: seq<Event>)
    requires NoConfigure(es)
    ensures ConfigAfter(config, es) == config
  {
    if es != [] {
      ConfigFixed(config, es[..|es| - 1]);
    }
  }

  lemma {:induction false} StreakBelowThreshold(config: Config, es: seq<Event>)
    requires config.failureThreshold >= 1 && NoConfigure(es)
    ensures PhaseAfter(config, es).state == Closed ==> FailureStreak(es) < config.failureThreshold
  {
    if es != [] {
      var before := es[..|es| - 1];
      StreakBelowThreshold(config, before);
      ConfigFixed(config, before);
      assert before + [es[|es| - 1]] == es;
      Snoc(config, before, es[|es| - 1]);
    }
  }

  /** A closed breaker opens at an event exactly when that event is the failure
      that brings the streak since the latest success to the threshold. */
  lemma OpensAtThreshold(config: Config, es: seq<Event>, e: Event)
    requires config.failureThreshold >= 1 && Monotone(es + [e]) && NoConfigure(es)
    requires Run(Fresh(config), es).state == Closed
    ensures Run(Fresh(config), es + [e]).state == Open <==>
            e.Failure? && FailureStreak(es + [e]) == config.failureThreshold
  {
    Snoc(config, es, e);
    MonotonePrefix(es, e);
    CountersRefineHistory(config, es);
    CountersRefineHistory(config, es + [e]);
    StreakBelowThreshold(config, es);
    ConfigFixed(config, es);
  }

  lemma MonotonePrefix(es: seq<Event>, e: Event)
    requires Monotone(es + [e])
    ensures Monotone(es)
  {
    forall i, j | 0 <= i < j < |es| && Timed(es[i]) && Timed(es[j])
      ensures es[i].now <= es[j].now
    {
      assert (es + [e])[i] == es[i] && (es + [e])[j] == es[j];
    }
  }

  /** While half-open, the history since the probe was admitted holds neither a
      failure nor a reset, and fewer successes than the threshold. */
  lemma {:induction false} ProbeWindow(config: Config, es: seq<Event>)
    requires config.successThreshold >= 1 && NoConfigure(es)
    requires PhaseAfter(config, es).state == HalfOpen
    ensures var since := PhaseAfter(config, es).since;
            && 1 <= since && es[since - 1].Ask? && PhaseAfter(config, es[..since - 1]).state == Open
            && (forall k :: since <= k < |es| ==> !es[k].Failure? && !es[k].Reset?)
            && Successes(es[since..]) < config.successThreshold
  {
    var before, e, since := es[..|es| - 1], es[|es| - 1], PhaseAfter(config, es).since;
    assert before + [e] == es;
    Snoc(config, before, e);
    ConfigFixed(config, before);
    if since == |es| {
      assert es[since..] == [];
    } else {
      ProbeWindow(config, before);
      assert before[..since - 1] == es[..since - 1];
      forall k | since <= k < |es|
        ensures !es[k].Failure? && !es[k].Reset?
      {
        assert k < |es| - 1 ==> es[k] == before[k];
      }
    }
  }

  /** A half-open breaker closes at a report exactly when that report is the
      success completing the threshold since the probe, no failure in between. */
  lemma ClosesAtThreshold(config: Config, es: seq<Event>, e: Event)
    requires config.successThreshold >= 1 && Monotone(es + [e]) && NoConfigure(es) && !e.Reset?
    requires Run(Fresh(config), es).state == HalfOpen
    ensures var since := PhaseAfter(config, es).since;
            && (forall k :: since <= k < |es| ==> !es[k].Failure?)
            && (Run(Fresh(config), es + [e]).state == Closed <==>
                e.Success? && Successes((es + [e])[since..]) == config.successThreshold)
  {
    Snoc(config, es, e);
    MonotonePrefix(es, e);
    CountersRefineHistory(config, es);
    CountersRefineHistory(config, es + [e]);
    ProbeWindow(config, es);
    ConfigFixed(config, es);
  }

  /** The success count is 0 outside the half-open state, whatever the clock does. */
  lemma {:induction false} NoSuccessCountOutsideHalfOpen(config: Config, es: seq<Event>)
    ensures var b := Run(Fresh(config), es);
            b.successCount >= 0 && (b.state != HalfOpen ==> b.successCount == 0)
  {
    if es != [] {
      NoSuccessCountOutsideHalfOpen(config, es[..|es| - 1]);
    }
  }
}
