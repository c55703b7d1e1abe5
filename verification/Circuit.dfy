/** The Mihomo circuit: plugin options, and the breaker with its gauges and counters. */
module Circuit {
  import opened Backoff
  import opened Breaker
  import opened Sequences

  // ---------- plugin options ----------

  datatype Args = Args(
    failureThreshold: int,
    attempts: int,
    attemptTimeoutMillis: int,
    initialBackoffMillis: int,
    maxBackoffMillis: int)

  datatype Config = Config(
    threshold: int,
    attempts: int,
    attemptTimeout: int,
    initial: int,
    maximum: int)

  /** A duration option in milliseconds, multiplied out in int64. */
  function Millis(x: int): int {
    Wrap64(x * MILLISECOND)
  }

  function ConfigOf(args: Args): Config {
    var timeout := Millis(args.attemptTimeoutMillis);
    var configured := Millis(args.initialBackoffMillis);
    var initial := if configured <= 0 then SECOND else configured;
    var maximum := Millis(args.maxBackoffMillis);
    Config(
      if args.failureThreshold <= 0 then 2 else args.failureThreshold,
      if args.attempts <= 0 then 1 else args.attempts,
      if timeout <= 0 then SECOND else timeout,
      initial,
      if maximum < initial then 5 * MINUTE else maximum)
  }

  function PolicyOf(c: Config): Policy
    requires c.threshold >= 0
  {
    Policy(c.threshold, c.initial, c.maximum, false, true)
  }

  lemma MillisGranularity(x: int)
    ensures Millis(x) % 64 == 0
  {
    var z := x * 1_000_000 + 0x8000_0000_0000_0000;
    var q := z / 0x1_0000_0000_0000_0000;
    assert Millis(x) == z % 0x1_0000_0000_0000_0000 - 0x8000_0000_0000_0000;
    WholeSixtyFour(Millis(x), 15625 * x - 0x400_0000_0000_0000 * q);
  }

  lemma WholeSixtyFour(r: int, k: int)
    requires r == 64 * k
    ensures r % 64 == 0
  {
  }

  /** The largest number of milliseconds that stays within 2^62 ns, about 146 years. */
  const LONGEST_MILLIS := 4_611_686_018_427

  predicate Moderate(x: int) {
    -LONGEST_MILLIS <= x <= LONGEST_MILLIS
  }

  /** The policy is usable exactly when neither delay exceeds 2^62 ns, which every option of
      up to 146 years guarantees. The initial delay exceeds the maximum in exactly one
      situation: a cap that is missing or too small together with an initial delay of more
      than five minutes. */
  lemma DefaultsUsable(args: Args)
    ensures var c := ConfigOf(args);
            && c.threshold >= 1 && c.attempts >= 1 && c.attemptTimeout > 0
            && (ValidPolicy(PolicyOf(c)) <==> c.initial <= TWO_62 && c.maximum <= TWO_62)
            && (Moderate(args.initialBackoffMillis) && Moderate(args.maxBackoffMillis) ==> ValidPolicy(PolicyOf(c)))
            && (c.initial > c.maximum <==>
                  Millis(args.maxBackoffMillis) < c.initial && c.initial > 5 * MINUTE)
  {
    MillisGranularity(args.initialBackoffMillis);
    ShortMillis(args.initialBackoffMillis);
    ShortMillis(args.maxBackoffMillis);
  }

  lemma ShortMillis(x: int)
    ensures Moderate(x) ==> Millis(x) == x * MILLISECOND <= TWO_62
  {
  }

  /** Within 292 years either way a number of milliseconds does not overflow. */
  predicate Representable(x: int) {
    -9_223_372_036_854 <= x <= 9_223_372_036_854
  }

  /** What each option comes to: a positive one is kept, a missing one gets its default - two
      failures, one attempt, one second, one second - and the cap is the given one unless
      that is below the initial delay, in which case it is five minutes. */
  lemma OptionsKept(args: Args)
    ensures var c := ConfigOf(args);
            && c.threshold == (if args.failureThreshold > 0 then args.failureThreshold else 2)
            && c.attempts == (if args.attempts > 0 then args.attempts else 1)
            && (Representable(args.attemptTimeoutMillis) ==>
                  c.attemptTimeout == if args.attemptTimeoutMillis > 0 then args.attemptTimeoutMillis * MILLISECOND
                                      else SECOND)
            && (Representable(args.initialBackoffMillis) ==>
                  c.initial == if args.initialBackoffMillis > 0 then args.initialBackoffMillis * MILLISECOND
                               else SECOND)
            && (Representable(args.maxBackoffMillis) ==>
                  c.maximum == if args.maxBackoffMillis * MILLISECOND >= c.initial
                               then args.maxBackoffMillis * MILLISECOND else 5 * MINUTE)
  {
  }

  // ---------- gauges ----------

  datatype Gauges = Gauges(state: int, backoff: int)

  /** The gauge writes of one event; the backoff gauge is kept in nanoseconds. */
  function GaugeWrites(pol: Policy, b: Breaker, g: Gauges, e: Event): Gauges {
    match e
    case Acquire(now) => if AfterAcquire(b, now).1 == Granted(PROBE) then Gauges(2, 0) else g
    case Succeed(_) => Gauges(0, 0)
    case Fail(p, _, draw) => if Effective(pol, b, p) then Gauges(1, Delay(pol, b.step + 1, draw)) else g
    case Abandon(_) => g
  }

  function GaugesAt(pol: Policy, es: seq<Event>): Gauges
    requires ValidRun(pol, es)
  {
    if es == [] then Gauges(0, 0)
    else GaugeWrites(pol, At(pol, Front(es)).b, GaugesAt(pol, Front(es)), Last(es))
  }

  predicate Truthful(b: Breaker, g: Gauges, armedAt: int) {
    && (g.state == 0 <==> b.step == 0)
    && (g.state == 2 <==> b.probing)
    && (g.state == 1 <==> b.step > 0 && !b.probing)
    && g.backoff == (if g.state == 1 then b.retryAt - armedAt else 0)
    && (g.backoff > 0 <==> g.state == 1)
  }

  lemma GaugeStep(pol: Policy, w: World, e: Event, g: Gauges, armedAt: int)
    requires ValidPolicy(pol) && ValidEvent(pol, w, e) && Truthful(w.b, g, armedAt)
    ensures var armedAt' := if e.Fail? && Effective(pol, w.b, e.p) then e.now else armedAt;
            Truthful(Step(pol, w, e).b, GaugeWrites(pol, w.b, g, e), armedAt')
  {
    if e.Fail? && Effective(pol, w.b, e.p) {
      DelayBounds(pol, w.b.step + 1, e.draw);
    }
  }

  /** The gauges are written only on some paths, yet in every reachable state they tell
      the truth: closed (0), open (1) or half-open (2), and a backoff shown exactly while
      waiting, equal to retryAt minus the time of the failure that armed it. */
  lemma {:induction false} GaugeRefinement(pol: Policy, es: seq<Event>)
    requires ValidPolicy(pol) && ValidRun(pol, es)
    ensures Truthful(At(pol, es).b, GaugesAt(pol, es), LastArmed(pol, es))
    decreases |es|
  {
    if es == [] {
    } else {
      GaugeRefinement(pol, Front(es));
      GaugeStep(pol, At(pol, Front(es)), Last(es), GaugesAt(pol, Front(es)), LastArmed(pol, Front(es)));
    }
  }

  // ---------- the circuit object ----------

  /** The delay of a step as the program computes it, in int64. */
  function Delay64(pol: Policy, step: nat, draw: int): int {
    JitterInt64(Doubling(pol.initial, pol.maximum, Rounds(step)), pol.maximum, draw)
  }

  /** Under a valid policy no computation overflows. */
  lemma Delay64Exact(pol: Policy, step: nat, draw: int)
    requires ValidPolicy(pol) && LegalDraw(NominalAt(pol, step), draw)
    ensures Delay64(pol, step, draw) == Delay(pol, step, draw)
  {
    DoublingClosedForm(pol.initial, pol.maximum, Rounds(step));
    NominalPositive(pol.initial, pol.maximum, step);
  }

  lemma FailExactly(pol: Policy, b: Breaker, g: Gauges, p: Permit, now: int, draw: int)
    ensures var delay := Delay64(pol, b.step + 1, draw);
            ValidPolicy(pol) && (Effective(pol, b, p) ==> LegalDraw(NominalAt(pol, b.step + 1), draw)) ==>
              && FailedFor(pol, b, p, now, delay) == AfterFail(pol, b, p, now, draw)
              && (if Effective(pol, b, p) then Gauges(1, delay) else g)
                 == GaugeWrites(pol, b, g, Event.Fail(p, now, draw))
  {
    if ValidPolicy(pol) && LegalDraw(NominalAt(pol, b.step + 1), draw) {
      Delay64Exact(pol, b.step + 1, draw);
    }
  }

  class Circuit {
    const failureThreshold: nat
    const initialBackoff: int
    const maxBackoff: int
    var consecutiveFailures: nat
    var backoffStep: nat
    var retryAt: int
    var probing: bool
    var stateGauge: int
    var backoffGauge: int
    var failureCounter: nat
    var bypassCounter: nat

    function Pol(): Policy {
      Policy(failureThreshold, initialBackoff, maxBackoff, false, true)
    }

    ghost function State(): Breaker
      reads this
    {
      Breaker(consecutiveFailures, backoffStep, retryAt, probing)
    }

    ghost function Readings(): Gauges
      reads this
    {
      Gauges(stateGauge, backoffGauge)
    }

    constructor (c: Config)
      requires c.threshold >= 1
      ensures Pol() == PolicyOf(c)
      ensures State() == INIT.b && Readings() == Gauges(0, 0)
      ensures failureCounter == 0 && bypassCounter == 0
    {
      failureThreshold, initialBackoff, maxBackoff := c.threshold, c.initial, c.maximum;
      consecutiveFailures, backoffStep, retryAt, probing := 0, 0, 0, false;
      stateGauge, backoffGauge, failureCounter, bypassCounter := 0, 0, 0, 0;
    }

    method Acquire(now: int) returns (permit: Permit, allowed: bool)
      modifies this
      ensures (State(), if allowed then Granted(permit) else Refused) == AfterAcquire(old(State()), now)
      ensures Readings() == GaugeWrites(Pol(), old(State()), old(Readings()), Event.Acquire(now))
      ensures failureCounter == old(failureCounter)
      ensures bypassCounter == old(bypassCounter) + (if allowed then 0 else 1)
    {
      if backoffStep == 0 {
        return PLAIN, true;
      }
      if now < retryAt || probing {
        bypassCounter := bypassCounter + 1;
        return PLAIN, false;
      }
      probing := true;
      stateGauge := 2;
      backoffGauge := 0;
      return PROBE, true;
    }

    /** What overlapping queries do to the breaker between two calls of one query. */
    method Overlap(others: Breaker -> Breaker)
      modifies this`consecutiveFailures, this`backoffStep, this`retryAt, this`probing
      ensures State() == others(old(State()))
    {
      var b := others(Breaker(consecutiveFailures, backoffStep, retryAt, probing));
      consecutiveFailures, backoffStep, retryAt, probing := b.failures, b.step, b.retryAt, b.probing;
    }

    method Succeed()
      modifies this
      ensures State() == CLOSED && Readings() == Gauges(0, 0)
      ensures failureCounter == old(failureCounter) && bypassCounter == old(bypassCounter)
    {
      consecutiveFailures := 0;
      backoffStep := 0;
      retryAt := 0;
      probing := false;
      stateGauge := 0;
      backoffGauge := 0;
    }

    /** Starts a wait: the timer and the gauges. */
    method Arm(now: int, draw: int)
      modifies this`probing, this`retryAt, this`stateGauge, this`backoffGauge
      ensures !probing && retryAt == now + Delay64(Pol(), backoffStep, draw)
      ensures Readings() == Gauges(1, Delay64(Pol(), backoffStep, draw))
    {
      probing := false;
      var nominal := ExponentialDelay(initialBackoff, maxBackoff, backoffStep);
      var delay := JitterDelay(nominal, maxBackoff, draw);
      retryAt := now + delay;
      stateGauge := 1;
      backoffGauge := delay;
    }

    /** Under any options, with the delay that int64 gives; under a valid policy this is the
        fail event of the protocol. */
    method Fail(p: Permit, now: int, draw: int)
      modifies this
      ensures var delay := Delay64(Pol(), old(backoffStep) + 1, draw);
              && State() == FailedFor(Pol(), old(State()), p, now, delay)
              && Readings() == if Effective(Pol(), old(State()), p) then Gauges(1, delay) else old(Readings())
      ensures ValidPolicy(Pol())
              && (Effective(Pol(), old(State()), p) ==> LegalDraw(NominalAt(Pol(), old(backoffStep) + 1), draw)) ==>
                && State() == AfterFail(Pol(), old(State()), p, now, draw)
                && Readings() == GaugeWrites(Pol(), old(State()), old(Readings()), Event.Fail(p, now, draw))
      ensures failureCounter == old(failureCounter) + 1 && bypassCounter == old(bypassCounter)
    {
      FailExactly(Pol(), State(), Readings(), p, now, draw);
      failureCounter := failureCounter + 1;
      if backoffStep == 0 {
        if p.probe {
          return;
        }
        consecutiveFailures := consecutiveFailures + 1;
        if consecutiveFailures < failureThreshold {
          return;
        }
        backoffStep := 1;
      } else {
        if !p.probe || !probing {
          return;
        }
        backoffStep := backoffStep + 1;
      }
      Arm(now, draw);
    }
  }
}
