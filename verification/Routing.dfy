// Provider routing: bounded backoff per host, and the primary, alternate, fallback order.
module Routing {
  import opened Options
  import opened Utils
  import PhaseId

  // ------------------------------------------------ one host: with_retry

  datatype Parsed =
    | Response(action: string, target: Option<string>)
    | ResponseError(invalidJson: bool)

  // What one provider call does: answers, fails in a way the policy retries, or fails otherwise.
  datatype Try = Answer(parsed: Parsed) | Retryable(kind: string) | Fatal(kind: string)

  datatype Policy = Policy(maxAttempts: nat, baseDelay: real, maxDelay: real)
  {
    // The bounds the policy model puts on its fields.
    predicate Valid() { maxAttempts > 0 && baseDelay >= 0.0 && maxDelay >= 0.0 }
  }

  datatype Attempt = Attempt(number: nat, delayMs: int, kind: string)

  datatype Retried = Success(parsed: Parsed) | Exhausted(attempts: nat, lastKind: string) | Raised(kind: string)

  // What a run does to the outside world.
  datatype Effect = Call | Sleep(delay: real)

  function Power2(n: nat): nat { if n == 0 then 1 else 2 * Power2(n - 1) }

  // n times x.
  function Scaled(n: int, x: real): real { n as real * x }

  function Capped(policy: Policy, idx: nat): real
  {
    var base := Scaled(Power2(idx), policy.baseDelay);
    if policy.maxDelay < base then policy.maxDelay else base
  }

  // The jitter: between half of and the whole of c.
  function Share(c: real, draw: nat): real { c * (0.5 + draw as real / 2000.0) }

  // _compute_delay; draw is 0..1000.
  function Delay(policy: Policy, idx: nat, draw: nat): real { Share(Capped(policy, idx), draw) }

  // The number of leading retryable failures among the first m calls.
  function Failing(call: nat -> Try, m: nat): (k: nat)
    ensures k <= m
    ensures forall i: nat :: i < k ==> call(i).Retryable?
    ensures k < m ==> !call(k).Retryable?
  {
    FailingFrom(call, m, 0)
  }

  function FailingFrom(call: nat -> Try, m: nat, from: nat): (k: nat)
    requires from <= m
    ensures from <= k <= m
    ensures forall i: nat :: from <= i < k ==> call(i).Retryable?
    ensures k < m ==> !call(k).Retryable?
    decreases m - from
  {
    if from == m || !call(from).Retryable? then from else FailingFrom(call, m, from + 1)
  }

  // The number of sleeps: one after every failed call but the last one allowed.
  function Sleeps(call: nat -> Try, m: nat): nat
    requires m > 0
  {
    if Failing(call, m) == m then m - 1 else Failing(call, m)
  }

  // n failed calls, each followed by its sleep.
  function Rounds(policy: Policy, draw: nat -> nat, n: nat): seq<Effect>
  {
    if n == 0 then [] else Rounds(policy, draw, n - 1) + [Call, Sleep(Delay(policy, n - 1, draw(n - 1)))]
  }

  function Recorded(call: nat -> Try, policy: Policy, draw: nat -> nat, n: nat): seq<Attempt>
    requires forall i: nat :: i < n ==> call(i).Retryable?
  {
    seq(n, i requires 0 <= i < n => Attempt(i + 1, (Delay(policy, i, draw(i)) * 1000.0).Floor, call(i).kind))
  }

  function Outcome(call: nat -> Try, m: nat): Retried
    requires m > 0
  {
    var k := Failing(call, m);
    if k == m then Exhausted(m, call(m - 1).kind)
    else if call(k).Answer? then Success(call(k).parsed)
    else Raised(call(k).kind)
  }

  // with_retry: calls until something other than a retryable failure, at most maxAttempts times.
  method WithRetry(call: nat -> Try, policy: Policy, draw: nat -> nat)
    returns (r: Retried, attempts: seq<Attempt>, effects: seq<Effect>)
    requires policy.Valid()
    ensures r == Outcome(call, policy.maxAttempts)
    ensures effects == Rounds(policy, draw, Sleeps(call, policy.maxAttempts)) + [Call]
    ensures attempts == Recorded(call, policy, draw, Sleeps(call, policy.maxAttempts))
    ensures BacksOff(policy, draw, attempts, effects)
  {
    hide Delay, Capped, Failing, FailingFrom, Power2, Recorded, Rounds, BacksOff;
    attempts, effects := [], [];
    RunBacksOff(call, policy, draw);
    RoundsStart(call, policy, draw);
    var idx := 0;
    while idx < policy.maxAttempts
      invariant idx < policy.maxAttempts
      invariant forall i: nat :: i < idx ==> call(i).Retryable?
      invariant effects == Rounds(policy, draw, idx)
      invariant attempts == Recorded(call, policy, draw, idx)
    {
      effects := effects + [Call];
      var got := call(idx);
      FailingAt(call, policy.maxAttempts, idx);
      match got
      case Answer(parsed) =>
        return Success(parsed), attempts, effects;
      case Fatal(kind) =>
        return Raised(kind), attempts, effects;
      case Retryable(kind) =>
        if idx + 1 >= policy.maxAttempts {
          return Exhausted(idx + 1, kind), attempts, effects;
        }
        var delay := Delay(policy, idx, draw(idx));
        attempts := attempts + [Attempt(idx + 1, (delay * 1000.0).Floor, kind)];
        effects := effects + [Sleep(delay)];
        RoundsStep(call, policy, draw, idx);
      idx := idx + 1;
    }
    assert false;
  }

  // A run alternates calls and sleeps and ends with a call.  Sleep number i lies between half of and
  // the whole of min(maxDelay, baseDelay * 2^i), where in that range is up to the draw, and the
  // record of the attempt tells it in milliseconds.
  predicate BacksOff(policy: Policy, draw: nat -> nat, attempts: seq<Attempt>, effects: seq<Effect>)
  {
    && |effects| == 2 * |attempts| + 1 && effects[2 * |attempts|] == Call
    && forall i: nat :: i < |attempts| ==>
         && effects[2 * i] == Call && effects[2 * i + 1].Sleep?
         && attempts[i].number == i + 1 && attempts[i].delayMs == (effects[2 * i + 1].delay * 1000.0).Floor
         && SleepFits(policy, i, draw(i), effects[2 * i + 1].delay)
  }

  predicate SleepFits(policy: Policy, i: nat, draw: nat, d: real)
  {
    var full := MinReal(policy.maxDelay, Scaled(Power2(i), policy.baseDelay));
    && (draw <= 1000 ==> 0.0 <= full / 2.0 <= d <= full)
    && (draw == 0 ==> d == full / 2.0)
    && (draw == 1000 ==> d == full)
  }

  // The powers double, and with them the range of the sleeps until the cap is reached.
  lemma RangeDoubles(policy: Policy, i: nat)
    requires policy.baseDelay >= 0.0 && Scaled(Power2(i + 1), policy.baseDelay) <= policy.maxDelay
    ensures Scaled(Power2(0), policy.baseDelay) == policy.baseDelay
    ensures MinReal(policy.maxDelay, Scaled(Power2(i + 1), policy.baseDelay))
            == 2.0 * MinReal(policy.maxDelay, Scaled(Power2(i), policy.baseDelay))
  {
    ScaledSum(Power2(i), Power2(i), policy.baseDelay);
    ScaledSum(0, 1, policy.baseDelay);
    ScaledGrows(0, Power2(i), policy.baseDelay);
    hide Scaled;
  }

  // A larger draw never gives a shorter sleep.
  lemma LargerDrawNoShorterSleep(policy: Policy, low: nat -> nat, high: nat -> nat, n: nat, i: nat)
    requires policy.Valid() && i < n && low(i) <= high(i)
    ensures |Rounds(policy, low, n)| == 2 * n == |Rounds(policy, high, n)|
    ensures var (a, b) := (Rounds(policy, low, n)[2 * i + 1], Rounds(policy, high, n)[2 * i + 1]);
            a.Sleep? && b.Sleep? && a.delay <= b.delay
  {
    RoundAt(policy, low, n, i);
    RoundAt(policy, high, n, i);
    LargerDraw(policy, i, low(i), high(i));
  }

  lemma LargerDraw(policy: Policy, i: nat, low: nat, high: nat)
    requires policy.Valid() && low <= high
    ensures Delay(policy, i, low) <= Delay(policy, i, high)
  {
    CappedNonNegative(policy, i);
    ShareGrows(Capped(policy, i), low, high);
    hide Capped, Share;
  }

  lemma ShareGrows(c: real, low: nat, high: nat)
    requires c >= 0.0 && low <= high
    ensures Share(c, low) <= Share(c, high)
  {
    var l, h := 0.5 + low as real / 2000.0, 0.5 + high as real / 2000.0;
    assert l <= h;
    TimesLe(l, h, c);
    assert c * l == l * c && c * h == h * c;
  }

  lemma ShareEnds(c: real)
    ensures Share(c, 0) == c / 2.0 && Share(c, 1000) == c
  {
  }

  lemma {:induction false} RoundAt(policy: Policy, draw: nat -> nat, n: nat, i: nat)
    requires i < n
    ensures |Rounds(policy, draw, n)| == 2 * n
    ensures Rounds(policy, draw, n)[2 * i] == Call
    ensures Rounds(policy, draw, n)[2 * i + 1] == Sleep(Delay(policy, i, draw(i)))
  {
    hide Delay;
    if i < n - 1 { RoundAt(policy, draw, n - 1, i); } else { RoundsLength(policy, draw, n - 1); }
  }

  lemma {:induction false} RoundsLength(policy: Policy, draw: nat -> nat, n: nat)
    ensures |Rounds(policy, draw, n)| == 2 * n
  {
    hide Delay;
    if n > 0 { RoundsLength(policy, draw, n - 1); }
  }

  lemma DelayFits(policy: Policy, i: nat, draw: nat)
    requires policy.Valid()
    ensures SleepFits(policy, i, draw, Delay(policy, i, draw))
  {
    ShareEnds(Capped(policy, i));
    CappedIsLeast(policy, i);
    if draw <= 1000 { DelayBounds(policy, i, draw); }
    hide Capped, Power2, Scaled, Share;
  }

  lemma CappedIsLeast(policy: Policy, i: nat)
    ensures Capped(policy, i) == MinReal(policy.maxDelay, Scaled(Power2(i), policy.baseDelay))
  {
    hide Scaled, Power2;
  }

  lemma BackoffOfRun(call: nat -> Try, policy: Policy, draw: nat -> nat, n: nat)
    requires policy.Valid() && forall i: nat :: i < n ==> call(i).Retryable?
    ensures BacksOff(policy, draw, Recorded(call, policy, draw, n), Rounds(policy, draw, n) + [Call])
  {
    hide Delay, Rounds, SleepFits;
    var attempts, effects := Recorded(call, policy, draw, n), Rounds(policy, draw, n) + [Call];
    RoundsLength(policy, draw, n);
    forall i: nat | i < n
      ensures effects[2 * i] == Call && effects[2 * i + 1] == Sleep(Delay(policy, i, draw(i)))
      ensures SleepFits(policy, i, draw(i), Delay(policy, i, draw(i)))
    {
      RoundAt(policy, draw, n, i);
      DelayFits(policy, i, draw(i));
    }
  }

  lemma RunBacksOff(call: nat -> Try, policy: Policy, draw: nat -> nat)
    requires policy.Valid()
    ensures forall i: nat :: i < Sleeps(call, policy.maxAttempts) ==> call(i).Retryable?
    ensures var n := Sleeps(call, policy.maxAttempts);
            BacksOff(policy, draw, Recorded(call, policy, draw, n), Rounds(policy, draw, n) + [Call])
  {
    hide Recorded, Rounds, BacksOff, FailingFrom;
    BackoffOfRun(call, policy, draw, Sleeps(call, policy.maxAttempts));
  }

  lemma RoundsStart(call: nat -> Try, policy: Policy, draw: nat -> nat)
    ensures Rounds(policy, draw, 0) == [] && Recorded(call, policy, draw, 0) == []
  {
  }

  lemma RoundsStep(call: nat -> Try, policy: Policy, draw: nat -> nat, idx: nat)
    requires forall i: nat :: i <= idx ==> call(i).Retryable?
    ensures var delay := Delay(policy, idx, draw(idx));
            && Rounds(policy, draw, idx + 1) == Rounds(policy, draw, idx) + [Call] + [Sleep(delay)]
            && Recorded(call, policy, draw, idx + 1)
               == Recorded(call, policy, draw, idx) + [Attempt(idx + 1, (delay * 1000.0).Floor, call(idx).kind)]
  {
    hide Delay, Capped;
    RecordedStep(call, policy, draw, idx);
    hide Recorded;
  }

  lemma RecordedStep(call: nat -> Try, policy: Policy, draw: nat -> nat, idx: nat)
    requires forall i: nat :: i <= idx ==> call(i).Retryable?
    ensures Recorded(call, policy, draw, idx + 1)
            == Recorded(call, policy, draw, idx)
               + [Attempt(idx + 1, (Delay(policy, idx, draw(idx)) * 1000.0).Floor, call(idx).kind)]
  {
    hide Delay;
  }

  lemma FailingAt(call: nat -> Try, m: nat, idx: nat)
    requires idx < m && forall i: nat :: i < idx ==> call(i).Retryable?
    ensures !call(idx).Retryable? ==> Failing(call, m) == idx
    ensures call(idx).Retryable? && idx + 1 == m ==> Failing(call, m) == m
  {
    var k := Failing(call, m);
    assert k >= idx;
  }

  function Calls(effects: seq<Effect>): nat
  {
    if effects == [] then 0
    else Calls(effects[..|effects| - 1]) + if effects[|effects| - 1].Call? then 1 else 0
  }

  function Slept(effects: seq<Effect>): real
  {
    if effects == [] then 0.0
    else Slept(effects[..|effects| - 1]) + match effects[|effects| - 1] case Call => 0.0 case Sleep(d) => d
  }

  lemma {:induction false} EffectsAdd(a: seq<Effect>, b: seq<Effect>)
    ensures Calls(a + b) == Calls(a) + Calls(b)
    ensures Slept(a + b) == Slept(a) + Slept(b)
    decreases |b|
  {
    if b == [] {
      assert a + b == a;
    } else {
      assert (a + b)[..|a + b| - 1] == a + b[..|b| - 1];
      EffectsAdd(a, b[..|b| - 1]);
    }
  }

  lemma RoundEffects(d: real)
    ensures Calls([Call, Sleep(d)]) == 1 && Slept([Call, Sleep(d)]) == d
    ensures Calls([Call]) == 1 && Slept([Call]) == 0.0
  {
    assert [Call, Sleep(d)][..1] == [Call] && [Call][..0] == [];
  }

  lemma CappedNonNegative(policy: Policy, idx: nat)
    requires policy.Valid()
    ensures Capped(policy, idx) >= 0.0
  {
    ScaledSum(0, 0, policy.baseDelay);
    ScaledGrows(0, Power2(idx), policy.baseDelay);
    hide Power2, Scaled;
  }

  // Every sleep lies between half the capped delay and the capped delay.
  lemma DelayBounds(policy: Policy, idx: nat, draw: nat)
    requires policy.Valid() && draw <= 1000
    ensures 0.0 <= Capped(policy, idx) / 2.0 <= Delay(policy, idx, draw) <= Capped(policy, idx)
  {
    CappedNonNegative(policy, idx);
    ShareEnds(Capped(policy, idx));
    ShareGrows(Capped(policy, idx), 0, draw);
    ShareGrows(Capped(policy, idx), draw, 1000);
    hide Capped, Share;
  }

  lemma ScaledSum(a: int, b: int, x: real)
    ensures Scaled(a + b, x) == Scaled(a, x) + Scaled(b, x)
    ensures Scaled(0, x) == 0.0 && Scaled(1, x) == x
  {
    assert (a + b) as real == a as real + b as real;
  }

  lemma ScaledGrows(a: int, b: int, x: real)
    requires a <= b && x >= 0.0
    ensures Scaled(a, x) <= Scaled(b, x)
  {
    TimesLe(a as real, b as real, x);
  }

  lemma {:induction false} RoundsBounded(policy: Policy, draw: nat -> nat, n: nat)
    requires policy.Valid() && forall i: nat :: draw(i) <= 1000
    ensures Calls(Rounds(policy, draw, n)) == n
    ensures 0.0 <= Slept(Rounds(policy, draw, n)) <= Scaled(n, policy.maxDelay)
    ensures Slept(Rounds(policy, draw, n)) <= Scaled(Power2(n) - 1, policy.baseDelay)
  {
    if n == 0 {
      ScaledSum(0, 0, policy.maxDelay);
      ScaledSum(0, 0, policy.baseDelay);
    } else {
      RoundsBounded(policy, draw, n - 1);
      OneRound(policy, draw, n - 1);
      ScaledSum(n - 1, 1, policy.maxDelay);
      ScaledSum(Power2(n - 1) - 1, Power2(n - 1), policy.baseDelay);
      hide Rounds, Slept, Calls, Scaled;
    }
  }

  lemma OneRound(policy: Policy, draw: nat -> nat, n: nat)
    requires policy.Valid() && draw(n) <= 1000
    ensures Calls(Rounds(policy, draw, n + 1)) == Calls(Rounds(policy, draw, n)) + 1
    ensures var d := Slept(Rounds(policy, draw, n + 1)) - Slept(Rounds(policy, draw, n));
            0.0 <= d <= policy.maxDelay && d <= Scaled(Power2(n), policy.baseDelay)
  {
    var d := Delay(policy, n, draw(n));
    DelayBounds(policy, n, draw(n));
    CappedBelow(policy, n);
    EffectsAdd(Rounds(policy, draw, n), [Call, Sleep(d)]);
    RoundEffects(d);
    hide Capped, Delay, Slept, Calls, Scaled;
  }

  lemma CappedBelow(policy: Policy, idx: nat)
    ensures Capped(policy, idx) <= policy.maxDelay
    ensures Capped(policy, idx) <= Scaled(Power2(idx), policy.baseDelay)
  {
    hide Scaled;
  }

  lemma {:induction false} Power2Grows(a: nat, b: nat)
    requires a <= b
    ensures 1 <= Power2(a) <= Power2(b)
    decreases b
  {
    if b > 0 { if a < b { Power2Grows(a, b - 1); } else { Power2Grows(a - 1, b - 1); } }
  }

  // What one host costs: between 1 and maxAttempts calls, and sleep below both bounds.
  lemma HostCost(call: nat -> Try, policy: Policy, draw: nat -> nat)
    requires policy.Valid() && forall i: nat :: draw(i) <= 1000
    ensures var m := policy.maxAttempts; var effects := HostEffects(call, policy, draw);
            && 1 <= Calls(effects) <= m
            && (Calls(effects) == m <==> Failing(call, m) >= m - 1)
            && 0.0 <= Slept(effects) <= SleepBound(policy)
  {
    var m := policy.maxAttempts;
    var n := Sleeps(call, m);
    SleepsOnceLess(call, m);
    hide Rounds, Slept, Calls, Power2, Scaled, Failing, FailingFrom, Sleeps;
    RoundsBounded(policy, draw, n);
    EffectsAdd(Rounds(policy, draw, n), [Call]);
    RoundEffects(0.0);
    Power2Grows(n, m - 1);
    ScaledGrows(n, m - 1, policy.maxDelay);
    ScaledGrows(Power2(n) - 1, Power2(m - 1) - 1, policy.baseDelay);
  }

  lemma SleepsOnceLess(call: nat -> Try, m: nat)
    requires m > 0
    ensures Sleeps(call, m) <= m - 1
    ensures Sleeps(call, m) == m - 1 <==> Failing(call, m) >= m - 1
  {
  }

  function HostEffects(call: nat -> Try, policy: Policy, draw: nat -> nat): seq<Effect>
    requires policy.Valid()
  {
    Rounds(policy, draw, Sleeps(call, policy.maxAttempts)) + [Call]
  }

  // ------------------------------------------------ the adapter

  datatype Status =
    | Ok | InvalidJson | SchemaViolation | ProviderError
    | PrimaryFailed | SameModelFallbackOk | FallbackOk | BothFailed | ExhaustedStatus

  datatype Failure = Failure(kind: string, attempts: nat)

  datatype AdapterResult = AdapterResult(host: nat, parsed: Parsed, status: Status,
                                         error: Option<string>, failure: Option<Failure>)

  // _call_model for host number host.
  function HostResult(host: nat, call: nat -> Try, m: nat): AdapterResult
    requires m > 0
  {
    match Outcome(call, m)
    case Success(p) =>
      AdapterResult(host, p,
                    if p.Response? then Ok else if p.invalidJson then InvalidJson else SchemaViolation, None, None)
    case Exhausted(n, kind) =>
      AdapterResult(host, ResponseError(false), ProviderError, Some(kind), Some(Failure(kind, n)))
    case Raised(kind) =>
      AdapterResult(host, ResponseError(false), ProviderError, Some(kind), None)
  }

  // _coerced_safe_response
  function SafeResponse(phase: string): Parsed
  {
    Response(if PhaseId.EndsWith(phase, "_VOTE") then "ABSTAIN" else "NOOP", None)
  }

  // The coerced action is ABSTAIN exactly in the voting phase of any day.
  lemma SafeResponseFitsPhase(p: PhaseId.Phase)
    ensures SafeResponse(PhaseId.Format(p)).action == (if p.kind == PhaseId.DayVote then "ABSTAIN" else "NOOP")
  {
    PhaseId.VoteSuffixIffVote(p);
  }

  // Every provider host: 0 is the primary, 1..alternates the same-model hosts, and the one after
  // them the fallback model when one is configured.
  datatype Network = Network(call: nat -> nat -> Try, draw: nat -> nat -> nat)

  datatype Config = Config(policy: Policy, alternates: nat, fallback: bool)
  {
    function Hosts(): nat { alternates + 1 + if fallback then 1 else 0 }
    predicate Valid() { policy.Valid() }
  }

  function ResultAt(config: Config, net: Network, h: nat): AdapterResult
    requires config.Valid()
  {
    HostResult(h, net.call(h), config.policy.maxAttempts)
  }

  predicate Answers(config: Config, net: Network, h: nat)
    requires config.Valid()
  {
    ResultAt(config, net, h).error == None
  }

  predicate RanOut(config: Config, net: Network, h: nat)
    requires config.Valid()
  {
    ResultAt(config, net, h).failure.Some?
  }

  // The effects of contacting hosts 0..n - 1 in order.
  function EffectsOf(config: Config, net: Network, n: nat): seq<Effect>
    requires config.Valid()
  {
    if n == 0 then [] else EffectsOf(config, net, n - 1) + HostEffects(net.call(n - 1), config.policy, net.draw(n - 1))
  }

  lemma EffectsStart(config: Config, net: Network)
    requires config.Valid()
    ensures EffectsOf(config, net, 1) == HostEffects(net.call(0), config.policy, net.draw(0))
  {
    assert EffectsOf(config, net, 0) == [];
  }

  lemma EffectsStep(config: Config, net: Network, h: nat)
    requires config.Valid()
    ensures EffectsOf(config, net, h + 1)
            == EffectsOf(config, net, h) + HostEffects(net.call(h), config.policy, net.draw(h))
  {
  }

  function Demoted(r: AdapterResult): AdapterResult { r.(status := PrimaryFailed) }

  // No host before n answers.
  predicate NoneAnswers(config: Config, net: Network, n: nat)
    requires config.Valid()
  {
    forall h: nat :: h < n ==> !Answers(config, net, h)
  }

  // The status of an answer from host h.
  function AnswerStatus(config: Config, net: Network, h: nat): Status
    requires config.Valid()
  {
    if h == 0 then ResultAt(config, net, h).status
    else if h <= config.alternates then SameModelFallbackOk
    else FallbackOk
  }

  // The first host that answers decides the result; every earlier attempt is primary_failed.
  predicate RoutedTo(config: Config, net: Network, h: nat, result: AdapterResult,
                     attempts: seq<AdapterResult>, effects: seq<Effect>)
    requires config.Valid()
  {
    && h < config.Hosts() && NoneAnswers(config, net, h) && Answers(config, net, h)
    && result == ResultAt(config, net, h).(status := AnswerStatus(config, net, h))
    && |attempts| == h + 1 && attempts[h] == result
    && (forall i: nat :: i < h ==> attempts[i] == Demoted(ResultAt(config, net, i)))
    && effects == EffectsOf(config, net, h + 1)
  }

  function FailedStatus(config: Config, net: Network): Status
    requires config.Valid()
  {
    if exists h: nat :: h < config.Hosts() && RanOut(config, net, h) then ExhaustedStatus
    else if config.fallback then BothFailed
    else PrimaryFailed
  }

  // Nobody answers: the last host's result with the terminal status and a safe action. Without a
  // fallback model the recorded last attempt keeps the answer that was not coerced.
  predicate RoutedNowhere(config: Config, net: Network, phase: string, result: AdapterResult,
                          attempts: seq<AdapterResult>, effects: seq<Effect>)
    requires config.Valid()
  {
    var n := config.Hosts();
    var last := ResultAt(config, net, n - 1).(status := FailedStatus(config, net));
    && NoneAnswers(config, net, n)
    && result == last.(parsed := SafeResponse(phase))
    && |attempts| == n && attempts[n - 1] == (if config.fallback then result else last)
    && (forall i: nat :: i < n - 1 ==> attempts[i] == Demoted(ResultAt(config, net, i)))
    && effects == EffectsOf(config, net, n)
  }

  ghost predicate Routed(config: Config, net: Network, phase: string, result: AdapterResult,
                         attempts: seq<AdapterResult>, effects: seq<Effect>)
    requires config.Valid()
  {
    || RoutedNowhere(config, net, phase, result, attempts, effects)
    || exists h: nat :: RoutedTo(config, net, h, result, attempts, effects)
  }

  class LiteLlmAdapter {
    const config: Config
    var lastAttempts: seq<AdapterResult>

    constructor (config: Config)
      ensures this.config == config && lastAttempts == []
    {
      this.config := config;
      lastAttempts := [];
    }

    // _call_model
    method CallModel(net: Network, host: nat) returns (r: AdapterResult, effects: seq<Effect>)
      requires config.Valid()
      ensures r == ResultAt(config, net, host)
      ensures effects == HostEffects(net.call(host), config.policy, net.draw(host))
    {
      var retried, _, did := WithRetry(net.call(host), config.policy, net.draw(host));
      effects := did;
      match retried
      case Success(p) =>
        var status := if p.Response? then Ok else if p.invalidJson then InvalidJson else SchemaViolation;
        r := AdapterResult(host, p, status, None, None);
      case Exhausted(n, kind) =>
        r := AdapterResult(host, ResponseError(false), ProviderError, Some(kind), Some(Failure(kind, n)));
      case Raised(kind) =>
        r := AdapterResult(host, ResponseError(false), ProviderError, Some(kind), None);
    }

    // complete
    method Complete(net: Network, phase: string) returns (result: AdapterResult, effects: seq<Effect>)
      requires config.Valid()
      modifies this`lastAttempts
      ensures Routed(config, net, phase, result, lastAttempts, effects)
    {
      hide ResultAt, HostEffects, EffectsOf, SafeResponse;
      EffectsStart(config, net);
      var attempts: seq<AdapterResult> := [];
      var primary, did := CallModel(net, 0);
      effects := did;
      attempts := attempts + [primary];
      if primary.error == None {
        lastAttempts := attempts;
        assert RoutedTo(config, net, 0, primary, lastAttempts, effects);
        return primary, effects;
      }
      var anyExhausted := primary.failure.Some?;
      assert anyExhausted <==> RanOut(config, net, 0);
      attempts := attempts[|attempts| - 1 := primary.(status := PrimaryFailed)];
      var lastSameModel: Option<AdapterResult> := None;
      for i := 0 to config.alternates
        invariant NoneAnswers(config, net, i + 1)
        invariant |attempts| == i + 1
        invariant forall k: nat :: k <= i ==> attempts[k] == Demoted(ResultAt(config, net, k))
        invariant effects == EffectsOf(config, net, i + 1)
        invariant anyExhausted <==> exists h: nat :: h < i + 1 && RanOut(config, net, h)
        invariant lastSameModel == if i == 0 then None else Some(ResultAt(config, net, i))
      {
        var attempt, more := CallModel(net, i + 1);
        effects := effects + more;
        EffectsStep(config, net, i + 1);
        if attempt.error == None {
          var promoted := attempt.(status := SameModelFallbackOk);
          attempts := attempts + [promoted];
          lastAttempts := attempts;
          assert RoutedTo(config, net, i + 1, promoted, lastAttempts, effects);
          return promoted, effects;
        }
        assert attempt.failure.Some? <==> RanOut(config, net, i + 1);
        anyExhausted := anyExhausted || attempt.failure.Some?;
        attempts := attempts + [attempt.(status := PrimaryFailed)];
        lastSameModel := Some(attempt);
      }
      if !config.fallback {
        var source := if lastSameModel.Some? then lastSameModel.value else primary;
        var failed := source.(status := if anyExhausted then ExhaustedStatus else PrimaryFailed);
        attempts := attempts[|attempts| - 1 := failed];
        lastAttempts := attempts;
        result := failed.(parsed := SafeResponse(phase));
        assert RoutedNowhere(config, net, phase, result, lastAttempts, effects);
        return;
      }
      var h := config.alternates + 1;
      var fallback, more := CallModel(net, h);
      effects := effects + more;
      EffectsStep(config, net, h);
      if fallback.error == None {
        var promoted := fallback.(status := FallbackOk);
        attempts := attempts + [promoted];
        lastAttempts := attempts;
        assert RoutedTo(config, net, h, promoted, lastAttempts, effects);
        return promoted, effects;
      }
      assert fallback.failure.Some? <==> RanOut(config, net, h);
      anyExhausted := anyExhausted || fallback.failure.Some?;
      result := fallback.(status := if anyExhausted then ExhaustedStatus else BothFailed,
                          parsed := SafeResponse(phase));
      attempts := attempts + [result];
      lastAttempts := attempts;
      assert RoutedNowhere(config, net, phase, result, lastAttempts, effects);
    }
  }

  // ------------------------------------------------ what every routing promises

  // A host answers iff a non-retryable call within its budget is an answer; it runs out iff every
  // call of its budget fails in a retryable way.
  lemma HostFate(config: Config, net: Network, h: nat)
    requires config.Valid()
    ensures RanOut(config, net, h) <==> forall i: nat :: i < config.policy.maxAttempts ==> net.call(h)(i).Retryable?
    ensures Answers(config, net, h) <==>
              exists i: nat :: i < config.policy.maxAttempts && net.call(h)(i).Answer?
                               && (forall j: nat :: j < i ==> net.call(h)(j).Retryable?)
    ensures !(Answers(config, net, h) && RanOut(config, net, h))
  {
    var call, m := net.call(h), config.policy.maxAttempts;
    var k := Failing(call, m);
    if i: nat :| i < m && call(i).Answer? && (forall j: nat :: j < i ==> call(j).Retryable?) {
      FailingAt(call, m, i);
    }
    assert call == net.call(h);
    assert k < m && call(k).Answer? ==>
             net.call(h)(k).Answer? && (forall j: nat :: j < k ==> net.call(h)(j).Retryable?);
  }

  // exhausted iff no host answered and some host ran out of retries.
  lemma ExhaustedIff(config: Config, net: Network, phase: string, result: AdapterResult,
                     attempts: seq<AdapterResult>, effects: seq<Effect>)
    requires config.Valid() && Routed(config, net, phase, result, attempts, effects)
    ensures result.status == ExhaustedStatus <==>
              NoneAnswers(config, net, config.Hosts()) && exists h: nat :: h < config.Hosts() && RanOut(config, net, h)
  {
    if RoutedNowhere(config, net, phase, result, attempts, effects) {
    } else {
      var h: nat :| RoutedTo(config, net, h, result, attempts, effects);
      assert Answers(config, net, h);
      assert result.status != ExhaustedStatus by {
        assert ResultAt(config, net, h).status != ExhaustedStatus;
      }
    }
  }

  // The routing is determined: the first answering host if there is one, and nobody otherwise.
  lemma RoutingIsDetermined(config: Config, net: Network, phase: string,
                            r1: AdapterResult, a1: seq<AdapterResult>, e1: seq<Effect>,
                            r2: AdapterResult, a2: seq<AdapterResult>, e2: seq<Effect>)
    requires config.Valid()
    requires Routed(config, net, phase, r1, a1, e1) && Routed(config, net, phase, r2, a2, e2)
    ensures r1 == r2 && a1 == a2 && e1 == e2
  {
    hide HostResult, EffectsOf, SafeResponse;
    if RoutedNowhere(config, net, phase, r1, a1, e1) {
      assert RoutedNowhere(config, net, phase, r2, a2, e2);
      assert a1 == a2;
    } else {
      var h: nat :| RoutedTo(config, net, h, r1, a1, e1);
      var g: nat :| RoutedTo(config, net, g, r2, a2, e2);
      assert !(h < g) && !(g < h);
      assert a1 == a2;
    }
  }

  // A call that goes through ends the routing, whether or not its text parses; only errors of the
  // call go on to the next host.
  lemma AnswerEndsRouting(config: Config, net: Network, phase: string, result: AdapterResult,
                          attempts: seq<AdapterResult>, effects: seq<Effect>)
    requires config.Valid() && Routed(config, net, phase, result, attempts, effects)
    ensures result.error == None <==> exists h: nat :: h < config.Hosts() && Answers(config, net, h)
    ensures result.error == None ==> RoutedTo(config, net, result.host, result, attempts, effects)
    ensures result.error != None ==> result.parsed == SafeResponse(phase)
  {
    if RoutedNowhere(config, net, phase, result, attempts, effects) {
      assert !Answers(config, net, config.Hosts() - 1);
    } else {
      var h: nat :| RoutedTo(config, net, h, result, attempts, effects);
    }
  }

  // The status names the route: the parse of a primary answer, the kind of host that answered
  // otherwise, and for a failure whether some host used up all its calls on retryable errors.
  lemma StatusNamesTheRoute(config: Config, net: Network, phase: string, result: AdapterResult,
                            attempts: seq<AdapterResult>, effects: seq<Effect>)
    requires config.Valid() && Routed(config, net, phase, result, attempts, effects)
    ensures result.error == None ==>
              result.status == if result.host > config.alternates then FallbackOk
                               else if result.host > 0 then SameModelFallbackOk
                               else match result.parsed
                                    case Response(_, _) => Ok
                                    case ResponseError(true) => InvalidJson
                                    case ResponseError(false) => SchemaViolation
    ensures result.error != None ==>
              && result.host == config.alternates + (if config.fallback then 1 else 0)
              && (result.status == ExhaustedStatus <==>
                    exists h: nat :: h <= result.host && AllRetryable(net, h, config.policy.maxAttempts))
              && result.status in {ExhaustedStatus, if config.fallback then BothFailed else PrimaryFailed}
  {
    forall h: nat ensures RanOut(config, net, h) <==> AllRetryable(net, h, config.policy.maxAttempts) {
      HostFate(config, net, h);
    }
    AnswerEndsRouting(config, net, phase, result, attempts, effects);
    if RoutedNowhere(config, net, phase, result, attempts, effects) {
      assert !Answers(config, net, config.Hosts() - 1);
      hide RanOut, AllRetryable, HostResult;
    }
  }

  predicate AllRetryable(net: Network, h: nat, m: nat) { forall i: nat :: i < m ==> net.call(h)(i).Retryable? }

  predicate ReadsAsSuccess(s: Status) { s == Ok || s == SameModelFallbackOk || s == FallbackOk }

  // A status that reads as a success means a parsed response exactly when the primary answered or
  // the answer parsed: the promotion of other hosts overwrites the parse status.
  lemma SuccessMeansParsedIff(config: Config, net: Network, h: nat, result: AdapterResult,
                              attempts: seq<AdapterResult>, effects: seq<Effect>)
    requires config.Valid() && RoutedTo(config, net, h, result, attempts, effects)
    ensures (ReadsAsSuccess(result.status) ==> result.parsed.Response?)
       <==> h == 0 || ResultAt(config, net, h).parsed.Response?
  {
  }

  // The recorded last attempt is the returned result exactly when a fallback model is configured
  // or some host answers; otherwise it keeps the failed parse that was made safe on the way out.
  lemma LastAttemptIsResultIff(config: Config, net: Network, phase: string, result: AdapterResult,
                               attempts: seq<AdapterResult>, effects: seq<Effect>)
    requires config.Valid() && Routed(config, net, phase, result, attempts, effects)
    ensures |attempts| > 0
    ensures attempts[|attempts| - 1] == result
       <==> config.fallback || exists h: nat :: h < config.Hosts() && Answers(config, net, h)
  {
    AnswerEndsRouting(config, net, phase, result, attempts, effects);
    if RoutedNowhere(config, net, phase, result, attempts, effects) {
      var last := ResultAt(config, net, config.Hosts() - 1);
      assert !Answers(config, net, config.Hosts() - 1);
      assert last.parsed == ResponseError(false);
    }
  }

  // Every host answers with this on every call.
  function Constant(answers: nat -> Try): Network
  {
    Network((h: nat) => (i: nat) => answers(h), (h: nat) => (i: nat) => 0)
  }

  // A primary that fails and an alternate whose answer is no JSON: reported as a success.
  lemma UnparsedAlternateReadsAsSuccess(policy: Policy, attempts: seq<AdapterResult>, phase: string,
                                        result: AdapterResult, effects: seq<Effect>)
    requires policy.Valid()
    requires var net := Constant((h: nat) => if h == 0 then Fatal("down") else Answer(ResponseError(true)));
             Routed(Config(policy, 1, false), net, phase, result, attempts, effects)
    ensures ReadsAsSuccess(result.status) && result.parsed == ResponseError(true)
  {
    var net := Constant((h: nat) => if h == 0 then Fatal("down") else Answer(ResponseError(true)));
    var config := Config(policy, 1, false);
    HostFate(config, net, 0);
    HostFate(config, net, 1);
    assert net.call(0)(0).Fatal? && net.call(1)(0).Answer?;
    assert !Answers(config, net, 0) && Answers(config, net, 1);
    AnswerEndsRouting(config, net, phase, result, attempts, effects);
    FirstTry(net.call(1), policy.maxAttempts);
  }

  lemma FirstTry(call: nat -> Try, m: nat)
    requires m > 0 && !call(0).Retryable?
    ensures Outcome(call, m) == if call(0).Answer? then Success(call(0).parsed) else Raised(call(0).kind)
  {
    FailingAt(call, m, 0);
  }

  // Provider calls: at least one for every host contacted, at most hosts * maxAttempts in all.
  lemma CallsBounded(config: Config, net: Network, phase: string, result: AdapterResult,
                     attempts: seq<AdapterResult>, effects: seq<Effect>)
    requires config.Valid() && (forall h: nat, i: nat :: net.draw(h)(i) <= 1000)
    requires Routed(config, net, phase, result, attempts, effects)
    ensures |attempts| <= Calls(effects) <= |attempts| * config.policy.maxAttempts
    ensures Calls(effects) <= (config.alternates + 2) * config.policy.maxAttempts
    ensures Slept(effects) <= Scaled(|attempts|, SleepBound(config.policy))
  {
    hide HostEffects, Calls, Slept, SleepBound, HostResult, SafeResponse;
    EffectsBounded(config, net, |attempts|);
    var m := config.policy.maxAttempts;
    assert |attempts| <= config.alternates + 2;
    ProductLe(|attempts|, config.alternates + 2, m);
  }

  lemma ProductLe(a: nat, b: nat, c: nat)
    requires a <= b
    ensures a * c <= b * c
  {
  }

  function SleepBound(policy: Policy): real
    requires policy.Valid()
  {
    MinReal(Scaled(policy.maxAttempts - 1, policy.maxDelay),
            Scaled(Power2(policy.maxAttempts - 1) - 1, policy.baseDelay))
  }

  lemma {:induction false} EffectsBounded(config: Config, net: Network, n: nat)
    requires config.Valid() && (forall h: nat, i: nat :: net.draw(h)(i) <= 1000)
    ensures n <= Calls(EffectsOf(config, net, n)) <= n * config.policy.maxAttempts
    ensures Slept(EffectsOf(config, net, n)) <= Scaled(n, SleepBound(config.policy))
  {
    hide HostEffects, Calls, Slept, SleepBound, Scaled, Failing, FailingFrom;
    if n == 0 {
      NoEffects();
      ScaledSum(0, 0, SleepBound(config.policy));
    } else {
      EffectsBounded(config, net, n - 1);
      var did := HostEffects(net.call(n - 1), config.policy, net.draw(n - 1));
      HostCost(net.call(n - 1), config.policy, net.draw(n - 1));
      EffectsAdd(EffectsOf(config, net, n - 1), did);
      ScaledSum(n - 1, 1, SleepBound(config.policy));
      OneMore(n - 1, config.policy.maxAttempts);
    }
  }

  lemma NoEffects()
    ensures Calls([]) == 0 && Slept([]) == 0.0
  {
  }

  lemma OneMore(n: nat, m: nat)
    ensures n * m + m == (n + 1) * m
  {
  }
}
