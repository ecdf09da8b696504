/**
  The public call loop (src/consumer/call.ts): strategies in order, each retried within a
  budget of target requests and a deadline. Executors, clock, randomness and cancellation are
  functions of the attempt number. `Judge` decides one attempt; a `Legal` trace is a sequence
  of attempts the loop may make, and `Conclude` the result it then returns.
 */
module Caller {
  import opened Wrappers

  datatype OutcomeClass =
    Success | DomainError | CallerError | AuthenticationRequired | RateLimited | UpstreamUnavailable

  datatype Unclassified = UnclassifiedResponse | AmbiguousResponse | VerificationFailed | ProjectionFailed

  datatype Code =
    | InvalidTimeout | SessionRequired | RequestBlocked | RequestBudgetExhausted | RequestTimeout | ResponseTooLarge
    | ResponseInvalidJson | ResponseContractMismatch | TransportFailure | Cancelled | InvalidInput | BrowserUnavailable
    | BrowserInteractionFailed

  datatype HttpCode = Plain(code: Code) | InvalidRequest | InteractionFailed

  /** What evaluating the outcome contracts of a response yields. */
  datatype Evaluation =
    Outcome(class_: OutcomeClass, retryAfterMs: Option<nat>) | NoOutcome(kind: Unclassified) | EvaluationThrows

  /** A count that is not a safe integer is None. */
  datatype Execution =
    | Responded(targetRequests: Option<int>, evaluation: Evaluation)
    | ThrewHttp(http: HttpCode, charged: int, hasInteractionFailure: bool)
    | ThrewContractError
    | ThrewOther

  datatype CallResult =
    | Classified(class_: OutcomeClass, attempts: nat)
    | NotClassified(kind: Unclassified, attempts: nat)
    | Failure(code: Code, attempts: nat, explained: bool)
    | Rejects

  datatype RetryPolicy = RetryPolicy(
    maxRetries: nat, onTransportFailure: bool, onClasses: set<OutcomeClass>,
    baseDelayMs: nat, maxDelayMs: nat, jitterRatio: real, honorRetryAfter: bool)

  datatype Capability = Capability(
    authenticationRequired: bool, totalTimeoutMs: nat, maxTargetRequests: nat, strategies: nat, policy: RetryPolicy)

  datatype Timeout = Absent | Integer(ms: int) | NotAnInteger

  /** Attempt n runs `exec(n)`; the clock is read as 0, then before (2n + 1) and after (2n + 2) attempt n. */
  datatype World = World(exec: nat -> Execution, clock: nat -> int, random: nat -> Option<real>, aborts: nat -> bool)

  // ---------- Arithmetic ----------

  function Pow2(n: nat): (r: nat)
    ensures r >= 1
  {
    if n == 0 then 1 else 2 * Pow2(n - 1)
  }

  function Min(a: int, b: int): int { if a < b then a else b }

  function Max(a: int, b: int): int { if a < b then b else a }

  /** None is a random value that is not finite. */
  function BoundedRandom(value: Option<real>): (r: real)
    ensures 0.0 <= r <= 1.0
  {
    if value.None? || value.value < 0.0 then 0.0 else if value.value > 1.0 then 1.0 else value.value
  }

  function Exponential(policy: RetryPolicy, retry: nat): nat
    requires retry >= 1
  {
    Min(policy.maxDelayMs, policy.baseDelayMs * Pow2(retry - 1))
  }

  function Structural(policy: RetryPolicy, retryAfterMs: Option<nat>): nat
  {
    if policy.honorRetryAfter && retryAfterMs.Some? then retryAfterMs.value else 0
  }

  function Jitter(spread: real, random: real): (r: int)
    requires 0.0 <= random <= 1.0
    ensures 0.0 <= spread ==> 0 <= r && r as real <= spread
  {
    assert 0.0 <= spread ==> 0.0 <= spread * random <= spread;
    (spread * random).Floor
  }

  function Jittered(e: nat, ratio: real, random: Option<real>): int
  {
    e + Jitter(e as real * ratio, BoundedRandom(random))
  }

  function RetryDelay(policy: RetryPolicy, retry: nat, retryAfterMs: Option<nat>, random: Option<real>): int
    requires retry >= 1
  {
    Max(Jittered(Exponential(policy, retry), policy.jitterRatio, random), Structural(policy, retryAfterMs))
  }

  function JitteredCap(policy: RetryPolicy): real
  {
    policy.maxDelayMs as real * (1.0 + policy.jitterRatio)
  }

  lemma JitteredBounds(policy: RetryPolicy, e: nat, random: Option<real>)
    requires e <= policy.maxDelayMs && policy.jitterRatio >= 0.0
    ensures var d := Jittered(e, policy.jitterRatio, random);
            e <= d && d as real <= JitteredCap(policy)
  {
    var spread := e as real * policy.jitterRatio;
    SpreadIsPositive(e, policy.jitterRatio);
    var jitter := Jitter(spread, BoundedRandom(random));
    assert 0 <= jitter && jitter as real <= spread;
    JitteredBelowCap(e, policy.maxDelayMs, policy.jitterRatio, jitter);
    assert Jittered(e, policy.jitterRatio, random) == e + jitter;
    assert (e + jitter) as real <= JitteredCap(policy);
  }

  lemma SpreadIsPositive(e: nat, ratio: real)
    requires ratio >= 0.0
    ensures e as real * ratio >= 0.0
  {
  }

  lemma ScaleMonotone(a: real, b: real, y: real)
    requires a <= b && 0.0 <= y
    ensures a * y <= b * y
  {
  }

  /** A delay lies between the capped exponential and the larger of the jittered cap and the structural delay. */
  lemma RetryDelayBounds(policy: RetryPolicy, retry: nat, retryAfterMs: Option<nat>, random: Option<real>)
    requires retry >= 1 && policy.jitterRatio >= 0.0
    ensures var delay := RetryDelay(policy, retry, retryAfterMs, random);
            Exponential(policy, retry) <= delay && Structural(policy, retryAfterMs) <= delay &&
            (delay as real <= JitteredCap(policy) || delay == Structural(policy, retryAfterMs))
  {
    JitteredBounds(policy, Exponential(policy, retry), random);
  }

  lemma JitteredBelowCap(e: nat, limit: nat, ratio: real, jitter: int)
    requires e <= limit && ratio >= 0.0 && jitter as real <= e as real * ratio
    ensures (e + jitter) as real <= limit as real * (1.0 + ratio)
  {
    ScaleMonotone(e as real, limit as real, ratio);
    assert limit as real * (1.0 + ratio) == limit as real + limit as real * ratio;
  }

  // ---------- Charging and mapping errors ----------

  function ChargedOnFailure(error: Execution, remaining: nat): (r: nat)
    requires !error.Responded?
    ensures r <= remaining
  {
    if remaining < 1 then 0
    else if error.ThrewHttp? then
      if error.charged > remaining then remaining
      else if error.charged > 0 then error.charged
      else if error.http in {Plain(TransportFailure), Plain(RequestTimeout)} then 1
      else 0
    else 1
  }

  function MapError(error: Execution, attempts: nat): (r: CallResult)
    requires !error.Responded?
    ensures r.Failure? && r.attempts == attempts
  {
    match error
    case ThrewHttp(InvalidRequest, _, _) => Failure(InvalidInput, attempts, true)
    case ThrewHttp(InteractionFailed, _, detail) =>
      if detail then Failure(BrowserInteractionFailed, attempts, true) else Failure(TransportFailure, attempts, true)
    case ThrewHttp(Plain(code), _, _) => Failure(code, attempts, true)
    case ThrewContractError => Failure(InvalidInput, attempts, true)
    case ThrewOther => Failure(TransportFailure, attempts, true)
  }

  predicate ValidCount(count: Option<int>, remaining: nat)
  {
    count.Some? && 1 <= count.value <= remaining
  }

  // ---------- One attempt ----------

  /** The call ends, the result is kept for later, or the attempt is repeated after a delay. */
  datatype Verdict = Return(result: CallResult) | Leave(result: CallResult) | Retry(delay: int)

  datatype Judgement = Judgement(charged: nat, verdict: Verdict)

  /** The catch block, with `charged` already counted for this attempt. */
  function JudgeError(cap: Capability, spent: nat, charged: nat, retries: nat, error: Execution,
                      random: Option<real>, timeLeft: int, aborted: bool): (j: Judgement)
    requires !error.Responded? && spent + charged <= cap.maxTargetRequests
    ensures spent + j.charged <= cap.maxTargetRequests
  {
    var total := charged + ChargedOnFailure(error, cap.maxTargetRequests - spent - charged);
    var failure := MapError(error, spent + total);
    if failure.code == TransportFailure && cap.policy.onTransportFailure && retries < cap.policy.maxRetries then
      var delay := RetryDelay(cap.policy, retries + 1, None, random);
      if delay > timeLeft then Judgement(total, Return(failure))
      else if aborted then Judgement(total, Return(Rejects))
      else Judgement(total, Retry(delay))
    else if failure.code in {TransportFailure, RequestTimeout} then Judgement(total, Leave(failure))
    else Judgement(total, Return(failure))
  }

  function Judge(cap: Capability, spent: nat, retries: nat, e: Execution,
                 random: Option<real>, timeLeft: int, aborted: bool): (j: Judgement)
    requires spent < cap.maxTargetRequests
    ensures spent + j.charged <= cap.maxTargetRequests
  {
    if !e.Responded? then JudgeError(cap, spent, 0, retries, e, random, timeLeft, aborted)
    else if !ValidCount(e.targetRequests, cap.maxTargetRequests - spent) then
      JudgeError(cap, spent, 0, retries, ThrewHttp(Plain(TransportFailure), 0, false), random, timeLeft, aborted)
    else
      var charged := e.targetRequests.value;
      match e.evaluation
      case EvaluationThrows => JudgeError(cap, spent, charged, retries, ThrewContractError, random, timeLeft, aborted)
      case NoOutcome(kind) => Judgement(charged, Leave(NotClassified(kind, spent + charged)))
      case Outcome(class_, retryAfterMs) =>
        var answer := Classified(class_, spent + charged);
        if class_ in {RateLimited, UpstreamUnavailable} && class_ in cap.policy.onClasses &&
           retries < cap.policy.maxRetries then
          var delay := RetryDelay(cap.policy, retries + 1, retryAfterMs, random);
          if delay > timeLeft then Judgement(charged, Return(answer))
          else if aborted then
            JudgeError(cap, spent, charged, retries, ThrewHttp(Plain(Cancelled), 0, false), random, timeLeft, aborted)
          else Judgement(charged, Retry(delay))
        else Judgement(charged, Return(answer))
  }

  // ---------- A whole call ----------

  /** One executor run: it was offered the budget left after `spent`. */
  datatype Attempt = Attempt(strategy: nat, retries: nat, spent: nat, charged: nat, verdict: Verdict)

  function Charged(trace: seq<Attempt>): nat
  {
    if trace == [] then 0 else Charged(trace[..|trace| - 1]) + trace[|trace| - 1].charged
  }

  predicate Follows(previous: Attempt, next: Attempt)
  {
    match previous.verdict
    case Retry(_) => next.strategy == previous.strategy && next.retries == previous.retries + 1
    case Leave(_) => next.strategy == previous.strategy + 1 && next.retries == 0
    case Return(_) => false
  }

  ghost predicate LegalAt(cap: Capability, w: World, deadline: int, trace: seq<Attempt>, i: nat)
    requires i < |trace|
  {
    var a := trace[i];
    && a.strategy < cap.strategies
    && a.spent == Charged(trace[..i]) < cap.maxTargetRequests
    && w.clock(2 * i + 1) < deadline
    && Judgement(a.charged, a.verdict) ==
       Judge(cap, a.spent, a.retries, w.exec(i), w.random(i), deadline - w.clock(2 * i + 2), w.aborts(i))
    && (if i == 0 then a.strategy == 0 && a.retries == 0 else Follows(trace[i - 1], a))
  }

  ghost predicate Legal(cap: Capability, w: World, deadline: int, trace: seq<Attempt>)
  {
    forall i: nat :: i < |trace| ==> LegalAt(cap, w, deadline, trace, i)
  }

  /** The result kept by the latest attempt that kept one. */
  function LastLeft(trace: seq<Attempt>): Option<CallResult>
  {
    if trace == [] then None
    else if trace[|trace| - 1].verdict.Leave? then Some(trace[|trace| - 1].verdict.result)
    else LastLeft(trace[..|trace| - 1])
  }

  /** The strategy the loop would run next. */
  function NextStrategy(trace: seq<Attempt>): nat
  {
    if trace == [] then 0
    else if trace[|trace| - 1].verdict.Leave? then trace[|trace| - 1].strategy + 1
    else trace[|trace| - 1].strategy
  }

  predicate Returned(trace: seq<Attempt>)
  {
    trace != [] && trace[|trace| - 1].verdict.Return?
  }

  /** Strategies and budget remain, so only the deadline can have stopped the loop. */
  predicate Unfinished(cap: Capability, trace: seq<Attempt>)
  {
    !Returned(trace) && NextStrategy(trace) < cap.strategies && Charged(trace) < cap.maxTargetRequests
  }

  function Conclude(cap: Capability, trace: seq<Attempt>): CallResult
  {
    if Returned(trace) then trace[|trace| - 1].verdict.result
    else if Unfinished(cap, trace) then Failure(RequestTimeout, Charged(trace), false)
    else if LastLeft(trace).Some? then LastLeft(trace).value
    else Failure(TransportFailure, Charged(trace), false)
  }

  ghost predicate Complete(cap: Capability, w: World, deadline: int, trace: seq<Attempt>)
  {
    Legal(cap, w, deadline, trace) && (Unfinished(cap, trace) ==> w.clock(2 * |trace| + 1) >= deadline)
  }

  lemma LegalAtLonger(cap: Capability, w: World, deadline: int, trace: seq<Attempt>, a: Attempt, i: nat)
    requires i < |trace| && LegalAt(cap, w, deadline, trace, i)
    ensures LegalAt(cap, w, deadline, trace + [a], i)
  {
    assert (trace + [a])[..i] == trace[..i];
  }

  lemma ChargedGrows(trace: seq<Attempt>, a: Attempt)
    ensures Charged(trace + [a]) == Charged(trace) + a.charged
  {
    assert (trace + [a])[..|trace|] == trace;
  }

  lemma Extend(cap: Capability, w: World, deadline: int, trace: seq<Attempt>, a: Attempt)
    requires Legal(cap, w, deadline, trace)
    requires a.strategy < cap.strategies && a.spent == Charged(trace) < cap.maxTargetRequests
    requires w.clock(2 * |trace| + 1) < deadline
    requires Judgement(a.charged, a.verdict) ==
             Judge(cap, a.spent, a.retries, w.exec(|trace|), w.random(|trace|),
                   deadline - w.clock(2 * |trace| + 2), w.aborts(|trace|))
    requires if trace == [] then a.strategy == 0 && a.retries == 0 else Follows(trace[|trace| - 1], a)
    ensures Legal(cap, w, deadline, trace + [a])
  {
    var longer := trace + [a];
    forall i: nat | i < |trace| ensures LegalAt(cap, w, deadline, longer, i) {
      assert LegalAt(cap, w, deadline, trace, i);
      LegalAtLonger(cap, w, deadline, trace, a, i);
    }
    assert LegalAt(cap, w, deadline, longer, |trace|) by {
      assert longer[..|trace|] == trace;
    }
  }

  /** The deadline of an accepted call, or the failure that precedes every attempt. */
  datatype Admission = Admitted(deadline: int) | Refused(result: CallResult)

  function Admit(cap: Capability, hasSession: bool, timeout: Timeout, now: int): Admission
  {
    if cap.authenticationRequired && !hasSession then Refused(Failure(SessionRequired, 0, false))
    else
      match timeout
      case NotAnInteger => Refused(Failure(InvalidTimeout, 0, false))
      case Absent =>
        if cap.totalTimeoutMs < 1 then Refused(Failure(InvalidTimeout, 0, false))
        else Admitted(now + cap.totalTimeoutMs)
      case Integer(ms) =>
        if ms < 1 || ms > cap.totalTimeoutMs then Refused(Failure(InvalidTimeout, 0, false)) else Admitted(now + ms)
  }

  /** What the loop variables say of the attempts made so far. */
  ghost predicate Going(cap: Capability, w: World, deadline: int, trace: seq<Attempt>, targetRequests: nat,
                        lastResult: Option<CallResult>)
  {
    Legal(cap, w, deadline, trace) && !Returned(trace) &&
    targetRequests == Charged(trace) <= cap.maxTargetRequests && lastResult == LastLeft(trace)
  }

  /** A strategy's next attempt would have this number. */
  predicate AtRetry(trace: seq<Attempt>, strategy: nat, retries: nat)
  {
    NextStrategy(trace) == strategy &&
    (if trace == [] || trace[|trace| - 1].verdict.Leave? then retries == 0
     else retries == trace[|trace| - 1].retries + 1)
  }

  /** One turn of the inner loop, past the deadline check: the attempt and what the variables become. */
  lemma OneAttempt(cap: Capability, w: World, deadline: int, trace: seq<Attempt>, targetRequests: nat,
                   lastResult: Option<CallResult>,
                   strategy: nat, retries: nat)
    requires Going(cap, w, deadline, trace, targetRequests, lastResult) && AtRetry(trace, strategy, retries)
    requires strategy < cap.strategies && targetRequests < cap.maxTargetRequests && w.clock(2 * |trace| + 1) < deadline
    ensures var n := |trace|;
            var j := Judge(cap, targetRequests, retries, w.exec(n), w.random(n),
                           deadline - w.clock(2 * n + 2), w.aborts(n));
            var a := Attempt(strategy, retries, targetRequests, j.charged, j.verdict);
            var longer := trace + [a];
            && Legal(cap, w, deadline, longer) && Charged(longer) == targetRequests + j.charged
            && longer[..n] == trace && longer[n] == a
            && (j.verdict.Retry? ==> retries < cap.policy.maxRetries)
            && LastLeft(longer) == (if j.verdict.Leave? then Some(j.verdict.result) else lastResult)
  {
    var n := |trace|;
    var j := Judge(cap, targetRequests, retries, w.exec(n), w.random(n), deadline - w.clock(2 * n + 2), w.aborts(n));
    var a := Attempt(strategy, retries, targetRequests, j.charged, j.verdict);
    Extend(cap, w, deadline, trace, a);
    ChargedGrows(trace, a);
    assert (trace + [a])[..n] == trace;
    RetriesAreBounded(cap, targetRequests, retries, w.exec(n), w.random(n), deadline - w.clock(2 * n + 2), w.aborts(n));
  }

  /** The inner loop: one strategy until it is left, returns, runs out of time or the budget is spent. */
  method RunStrategy(cap: Capability, w: World, deadline: int, strategy: nat, trace0: seq<Attempt>,
                     targetRequests0: nat,
                     lastResult0: Option<CallResult>)
    returns (done: Option<CallResult>, trace: seq<Attempt>, targetRequests: nat, lastResult: Option<CallResult>)
    requires Going(cap, w, deadline, trace0, targetRequests0, lastResult0) && strategy < cap.strategies
    requires targetRequests0 < cap.maxTargetRequests ==> AtRetry(trace0, strategy, 0)
    ensures done.Some? ==> Complete(cap, w, deadline, trace) && done.value == Conclude(cap, trace)
    ensures done.None? ==> Going(cap, w, deadline, trace, targetRequests, lastResult)
    ensures done.None? && targetRequests < cap.maxTargetRequests ==> AtRetry(trace, strategy + 1, 0)
  {
    done, trace, targetRequests, lastResult := None, trace0, targetRequests0, lastResult0;
    var retries := 0;
    while targetRequests < cap.maxTargetRequests
      invariant Going(cap, w, deadline, trace, targetRequests, lastResult)
      invariant retries <= cap.policy.maxRetries
      invariant targetRequests < cap.maxTargetRequests ==> AtRetry(trace, strategy, retries)
      decreases cap.policy.maxRetries - retries
    {
      var n := |trace|;
      if deadline - w.clock(2 * n + 1) <= 0 {
        done := Some(Failure(RequestTimeout, targetRequests, false));
        return;
      }
      OneAttempt(cap, w, deadline, trace, targetRequests, lastResult, strategy, retries);
      var j := Judge(cap, targetRequests, retries, w.exec(n), w.random(n), deadline - w.clock(2 * n + 2), w.aborts(n));
      trace := trace + [Attempt(strategy, retries, targetRequests, j.charged, j.verdict)];
      targetRequests := targetRequests + j.charged;
      match j.verdict {
        case Return(r) =>
          done := Some(r);
          return;
        case Leave(r) =>
          lastResult := Some(r);
          return;
        case Retry(_) =>
          retries := retries + 1;
      }
    }
  }

  /** The nested loops of the call; the trace is what the executors saw. */
  method Call(cap: Capability, hasSession: bool, timeout: Timeout, w: World)
    returns (result: CallResult, trace: seq<Attempt>)
    ensures var admission := Admit(cap, hasSession, timeout, w.clock(0));
            match admission
            case Refused(refusal) => trace == [] && result == refusal
            case Admitted(deadline) => Complete(cap, w, deadline, trace) && result == Conclude(cap, trace)
  {
    trace := [];
    var admission := Admit(cap, hasSession, timeout, w.clock(0));
    if admission.Refused? {
      return admission.result, trace;
    }
    var deadline := admission.deadline;
    var targetRequests: nat := 0;
    var lastResult: Option<CallResult> := None;
    for strategy := 0 to cap.strategies
      invariant Going(cap, w, deadline, trace, targetRequests, lastResult)
      invariant targetRequests < cap.maxTargetRequests ==> AtRetry(trace, strategy, 0)
    {
      var done: Option<CallResult>;
      done, trace, targetRequests, lastResult :=
        RunStrategy(cap, w, deadline, strategy, trace, targetRequests, lastResult);
      if done.Some? {
        return done.value, trace;
      }
    }
    result := if lastResult.Some? then lastResult.value else Failure(TransportFailure, targetRequests, false);
  }

  // ---------- What every call keeps ----------

  lemma RetriesAreBounded(cap: Capability, spent: nat, retries: nat, e: Execution, random: Option<real>, timeLeft: int,
                          aborted: bool)
    requires spent < cap.maxTargetRequests
    ensures var v := Judge(cap, spent, retries, e, random, timeLeft, aborted).verdict;
            v.Retry? ==> retries < cap.policy.maxRetries && v.delay <= timeLeft && !aborted
  {
  }

  lemma {:induction false} PrefixIsLegal(cap: Capability, w: World, deadline: int, trace: seq<Attempt>, n: nat)
    requires Legal(cap, w, deadline, trace) && n <= |trace|
    ensures Legal(cap, w, deadline, trace[..n])
  {
    forall i: nat | i < n ensures LegalAt(cap, w, deadline, trace[..n], i) {
      assert LegalAt(cap, w, deadline, trace, i);
      assert trace[..n][..i] == trace[..i];
    }
  }

  /** Charges never exceed the budget, and each executor is offered exactly the unspent budget, at least one. */
  lemma {:induction false} BudgetIsConserved(cap: Capability, w: World, deadline: int, trace: seq<Attempt>)
    requires Legal(cap, w, deadline, trace)
    ensures Charged(trace) <= cap.maxTargetRequests
    ensures forall i: nat :: i < |trace| ==>
              cap.maxTargetRequests - trace[i].spent == cap.maxTargetRequests - Charged(trace[..i]) >= 1
  {
    forall i: nat | i < |trace| ensures trace[i].spent == Charged(trace[..i]) < cap.maxTargetRequests {
      assert LegalAt(cap, w, deadline, trace, i);
    }
    if trace != [] {
      assert LegalAt(cap, w, deadline, trace, |trace| - 1);
    }
  }

  /** The budget ran out on a scheduled retry after some earlier strategy had kept a result. */
  predicate SpentOnARetry(cap: Capability, trace: seq<Attempt>)
  {
    trace != [] && trace[|trace| - 1].verdict.Retry? && LastLeft(trace).Some? && Charged(trace) == cap.maxTargetRequests
  }

  /** Behind a retry that spent the last of the budget, an earlier kept result knows only of less. */
  lemma SpentResultIsBehind(cap: Capability, w: World, deadline: int, trace: seq<Attempt>)
    requires Legal(cap, w, deadline, trace) && SpentOnARetry(cap, trace)
    ensures !LastLeft(trace).value.Rejects? && LastLeft(trace).value.attempts < Charged(trace)
  {
    var n := |trace| - 1;
    assert LegalAt(cap, w, deadline, trace, n);
    PrefixIsLegal(cap, w, deadline, trace, n);
    LastLeftAttempts(cap, w, deadline, trace[..n]);
  }

  /**
    A result reports exactly the sum charged, unless the budget ran out on a scheduled retry
    behind a kept result; then it reports the smaller count of the kept result.
   */
  lemma ReportedAttemptsExact(cap: Capability, w: World, deadline: int, trace: seq<Attempt>)
    requires Complete(cap, w, deadline, trace) && !Conclude(cap, trace).Rejects?
    ensures Conclude(cap, trace).attempts == Charged(trace) <==> !SpentOnARetry(cap, trace)
  {
    if trace != [] {
      assert LegalAt(cap, w, deadline, trace, |trace| - 1);
      if !Returned(trace) && LastLeft(trace).Some? {
        LastLeftAttempts(cap, w, deadline, trace);
        if trace[|trace| - 1].verdict.Retry? {
          if SpentOnARetry(cap, trace) {
            SpentResultIsBehind(cap, w, deadline, trace);
          }
        }
      }
    }
  }

  lemma {:induction false} LastLeftAttempts(cap: Capability, w: World, deadline: int, trace: seq<Attempt>)
    requires Legal(cap, w, deadline, trace) && LastLeft(trace).Some?
    ensures !LastLeft(trace).value.Rejects? && LastLeft(trace).value.attempts <= Charged(trace)
    ensures trace[|trace| - 1].verdict.Leave? ==> LastLeft(trace).value.attempts == Charged(trace)
  {
    assert LegalAt(cap, w, deadline, trace, |trace| - 1);
    if !trace[|trace| - 1].verdict.Leave? {
      PrefixIsLegal(cap, w, deadline, trace, |trace| - 1);
      LastLeftAttempts(cap, w, deadline, trace[..|trace| - 1]);
    }
  }

  /** Position of an attempt in the order (strategy, retry). */
  function Rank(cap: Capability, a: Attempt): nat
  {
    a.strategy * (1 + cap.policy.maxRetries) + a.retries
  }

  /** Retries never pass the policy, and every attempt ranks above the one before it. */
  lemma {:induction false} RanksIncrease(cap: Capability, w: World, deadline: int, trace: seq<Attempt>, i: nat)
    requires Legal(cap, w, deadline, trace) && i < |trace|
    ensures trace[i].retries <= cap.policy.maxRetries && i <= Rank(cap, trace[i])
  {
    assert LegalAt(cap, w, deadline, trace, i);
    if i > 0 {
      RanksIncrease(cap, w, deadline, trace, i - 1);
      var p := trace[i - 1];
      assert LegalAt(cap, w, deadline, trace, i - 1);
      RetriesAreBounded(cap, p.spent, p.retries, w.exec(i - 1), w.random(i - 1),
                        deadline - w.clock(2 * (i - 1) + 2), w.aborts(i - 1));
      assert p.verdict.Leave? ==>
        Rank(cap, trace[i]) == p.strategy * (1 + cap.policy.maxRetries) + 1 + cap.policy.maxRetries;
    }
  }

  /** Executor runs are at most strategies times (1 + max_retries). */
  lemma RunsAreBounded(cap: Capability, w: World, deadline: int, trace: seq<Attempt>)
    requires Legal(cap, w, deadline, trace)
    ensures |trace| <= cap.strategies * (1 + cap.policy.maxRetries)
  {
    if trace != [] {
      var last := trace[|trace| - 1];
      RanksIncrease(cap, w, deadline, trace, |trace| - 1);
      assert LegalAt(cap, w, deadline, trace, |trace| - 1);
      StrategyTimes(last.strategy, cap.strategies, 1 + cap.policy.maxRetries);
    }
  }

  lemma StrategyTimes(a: nat, b: nat, k: nat)
    requires a < b
    ensures a * k + k <= b * k
  {
    assert (a + 1) * k <= b * k;
  }

  /** No retry wait longer than the time left at the deadline is started, and none is shorter than the exponential. */
  lemma WaitsFitTheDeadline(cap: Capability, w: World, deadline: int, trace: seq<Attempt>, i: nat)
    requires Legal(cap, w, deadline, trace) && i < |trace| && trace[i].verdict.Retry?
    requires cap.policy.jitterRatio >= 0.0
    ensures trace[i].verdict.delay <= deadline - w.clock(2 * i + 2)
    ensures trace[i].verdict.delay >= Exponential(cap.policy, trace[i].retries + 1)
  {
    var a := trace[i];
    assert LegalAt(cap, w, deadline, trace, i);
    DelayIsLongEnough(cap, a.spent, a.retries, w.exec(i), w.random(i), deadline - w.clock(2 * i + 2), w.aborts(i));
  }

  lemma DelayIsLongEnough(cap: Capability, spent: nat, retries: nat, e: Execution, random: Option<real>, timeLeft: int,
                          aborted: bool)
    requires spent < cap.maxTargetRequests && cap.policy.jitterRatio >= 0.0
    ensures var v := Judge(cap, spent, retries, e, random, timeLeft, aborted).verdict;
            v.Retry? ==> v.delay >= Exponential(cap.policy, retries + 1)
  {
    RetryDelayBounds(cap.policy, retries + 1, None, random);
    if e.Responded? && e.evaluation.Outcome? {
      RetryDelayBounds(cap.policy, retries + 1, e.evaluation.retryAfterMs, random);
    }
  }

  /** The unexplained transport failure is returned exactly when the loop ran out with nothing kept. */
  lemma FallbackExact(cap: Capability, w: World, deadline: int, trace: seq<Attempt>)
    requires Complete(cap, w, deadline, trace)
    ensures Conclude(cap, trace) == Failure(TransportFailure, Charged(trace), false) <==>
            !Returned(trace) && !Unfinished(cap, trace) && forall i :: 0 <= i < |trace| ==> !trace[i].verdict.Leave?
  {
    LastLeftExact(trace);
    if Returned(trace) {
      assert LegalAt(cap, w, deadline, trace, |trace| - 1);
    } else if LastLeft(trace).Some? {
      LeftIsExplained(cap, w, deadline, trace);
    }
  }

  lemma {:induction false} LastLeftExact(trace: seq<Attempt>)
    ensures LastLeft(trace).None? <==> forall i :: 0 <= i < |trace| ==> !trace[i].verdict.Leave?
  {
    if trace != [] {
      LastLeftExact(trace[..|trace| - 1]);
    }
  }

  lemma {:induction false} LeftIsExplained(cap: Capability, w: World, deadline: int, trace: seq<Attempt>)
    requires Legal(cap, w, deadline, trace) && LastLeft(trace).Some?
    ensures var r := LastLeft(trace).value; r.NotClassified? || (r.Failure? && r.explained)
  {
    assert LegalAt(cap, w, deadline, trace, |trace| - 1);
    if !trace[|trace| - 1].verdict.Leave? {
      PrefixIsLegal(cap, w, deadline, trace, |trace| - 1);
      LeftIsExplained(cap, w, deadline, trace[..|trace| - 1]);
    }
  }

  // ---------- When a received answer is returned ----------

  /** The answer asks for a retry that the policy still allows, after a wait that fits the time left. */
  predicate WaitsToRetry(cap: Capability, retries: nat, outcome: Evaluation, random: Option<real>, timeLeft: int)
    requires outcome.Outcome?
  {
    && outcome.class_ in {RateLimited, UpstreamUnavailable} && outcome.class_ in cap.policy.onClasses
    && retries < cap.policy.maxRetries
    && RetryDelay(cap.policy, retries + 1, outcome.retryAfterMs, random) <= timeLeft
  }

  /** The last attempt was answered, within its budget. */
  predicate Answered(cap: Capability, w: World, trace: seq<Attempt>)
  {
    |trace| > 0 &&
    var n := |trace| - 1;
    && w.exec(n).Responded? && w.exec(n).evaluation.Outcome?
    && trace[n].spent < cap.maxTargetRequests
    && ValidCount(w.exec(n).targetRequests, cap.maxTargetRequests - trace[n].spent)
  }

  /** What a call returns when its last attempt has started to wait for a retry. */
  function AfterWaiting(cap: Capability, trace: seq<Attempt>, aborted: bool): CallResult
  {
    if aborted then Failure(Cancelled, Charged(trace), true)
    else if Charged(trace) < cap.maxTargetRequests then Failure(RequestTimeout, Charged(trace), false)
    else if LastLeft(trace).Some? then LastLeft(trace).value
    else Failure(TransportFailure, Charged(trace), false)
  }

  lemma AnsweredJudgement(cap: Capability, spent: nat, retries: nat, e: Execution,
                          random: Option<real>, timeLeft: int, aborted: bool)
    requires spent < cap.maxTargetRequests && e.Responded? && e.evaluation.Outcome?
    requires ValidCount(e.targetRequests, cap.maxTargetRequests - spent)
    ensures var j, total := Judge(cap, spent, retries, e, random, timeLeft, aborted), spent + e.targetRequests.value;
            && spent + j.charged == total
            && (if !WaitsToRetry(cap, retries, e.evaluation, random, timeLeft)
                then j.verdict == Return(Classified(e.evaluation.class_, total))
                else if aborted then j.verdict == Return(Failure(Cancelled, total, true))
                else j.verdict.Retry?)
  {
  }

  /**
    The answer of the last attempt is what the call returns, if and only if that attempt did not start to wait
    for a retry. A wait that is cancelled, that ends at the deadline or that finds the budget spent loses it.
   */
  lemma AnswerReturnedExact(cap: Capability, w: World, deadline: int, trace: seq<Attempt>)
    requires Complete(cap, w, deadline, trace) && Answered(cap, w, trace)
    ensures var n := |trace| - 1;
            var outcome := w.exec(n).evaluation;
            var waits := WaitsToRetry(cap, trace[n].retries, outcome, w.random(n), deadline - w.clock(2 * n + 2));
            && (Conclude(cap, trace) == Classified(outcome.class_, Charged(trace)) <==> !waits)
            && (waits ==> Conclude(cap, trace) == AfterWaiting(cap, trace, w.aborts(n)))
  {
    var n := |trace| - 1;
    var a := trace[n];
    assert LegalAt(cap, w, deadline, trace, n);
    AnsweredJudgement(cap, a.spent, a.retries, w.exec(n), w.random(n), deadline - w.clock(2 * n + 2), w.aborts(n));
    if LastLeft(trace).Some? {
      LeftIsExplained(cap, w, deadline, trace);
    }
  }

  // ---------- Corners ----------

  const PATIENT := RetryPolicy(2, true, {RateLimited, UpstreamUnavailable}, 100, 1000, 0.0, true)

  /**
    A retry can charge nothing: a browser interaction failure without detail. So the budget is no termination
    measure.
   */
  lemma RetryMayChargeNothing(max: nat)
    requires max > 0
    ensures Judge(Capability(false, 5000, max, 1, PATIENT), 0, 0,
                  ThrewHttp(InteractionFailed, 0, false), None, 5000, false) ==
            Judgement(0, Retry(100))
  {
  }

  const RATE_LIMITED_WORLD := World(n => Responded(Some(1), Outcome(RateLimited, None)), n => 0, n => None, n => false)

  /** A rate-limited answer whose retry finds the budget spent is reported as an unexplained transport failure. */
  lemma ScheduledRetryLosesTheAnswer()
    ensures var cap := Capability(false, 5000, 1, 1, PATIENT);
            var trace := [Attempt(0, 0, 0, 1, Retry(100))];
            Complete(cap, RATE_LIMITED_WORLD, 5000, trace) &&
            Conclude(cap, trace) == Failure(TransportFailure, 1, false)
  {
    var cap := Capability(false, 5000, 1, 1, PATIENT);
    var trace := [Attempt(0, 0, 0, 1, Retry(100))];
    assert trace[..0] == [];
    assert LastLeft([]) == None;
    assert LegalAt(cap, RATE_LIMITED_WORLD, 5000, trace, 0);
  }

  const LATE_RATE_LIMIT := RATE_LIMITED_WORLD.(clock := n => if n < 2 then 0 else if n == 2 then 4900 else 5000)

  /** With nine of ten requests left, a wait that ends at the deadline loses the rate-limited answer too. */
  lemma WaitToTheDeadlineLosesTheAnswer()
    ensures var cap := Capability(false, 5000, 10, 1, PATIENT);
            var trace := [Attempt(0, 0, 0, 1, Retry(100))];
            Complete(cap, LATE_RATE_LIMIT, 5000, trace) && Conclude(cap, trace) == Failure(RequestTimeout, 1, false)
  {
    var cap := Capability(false, 5000, 10, 1, PATIENT);
    var trace := [Attempt(0, 0, 0, 1, Retry(100))];
    assert trace[..0] == [];
    assert LegalAt(cap, LATE_RATE_LIMIT, 5000, trace, 0);
  }

  const MISMATCH_THEN_RATE_LIMIT :=
    World(n => if n == 0 then Responded(Some(1), NoOutcome(UnclassifiedResponse))
               else Responded(Some(1), Outcome(RateLimited, None)),
          n => 0, n => None, n => false)

  /** Two requests are charged, but the kept result of the first strategy reports one. */
  lemma KeptResultUnderreports()
    ensures var cap := Capability(false, 5000, 2, 2, PATIENT);
            var trace := [Attempt(0, 0, 0, 1, Leave(NotClassified(UnclassifiedResponse, 1))),
                          Attempt(1, 0, 1, 1, Retry(100))];
            Complete(cap, MISMATCH_THEN_RATE_LIMIT, 5000, trace) && Charged(trace) == 2 &&
            Conclude(cap, trace) == NotClassified(UnclassifiedResponse, 1)
  {
    var cap := Capability(false, 5000, 2, 2, PATIENT);
    var first := Attempt(0, 0, 0, 1, Leave(NotClassified(UnclassifiedResponse, 1)));
    var trace := [first, Attempt(1, 0, 1, 1, Retry(100))];
    assert trace[..0] == [] && trace[..1] == [first] && [first][..0] == [];
    assert LegalAt(cap, MISMATCH_THEN_RATE_LIMIT, 5000, trace, 0);
    assert LegalAt(cap, MISMATCH_THEN_RATE_LIMIT, 5000, trace, 1);
  }
}
