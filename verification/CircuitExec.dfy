/** `Plugin.Exec`: one query through the Mihomo circuit, with retries.
 *
 * The upstream, the attempt timer and the caller's context are an environment: for each
 * attempt it fixes when the upstream would finish and with what, when the context is
 * cancelled, and which of the ready channels `select` takes. Time is in nanoseconds.
 */
module CircuitExec {
  import opened Backoff
  import opened Breaker
  import opened Sequences
  import opened Circuit
  import opened Options

  datatype Error =
    | CircuitOpen
    | NoResponse
    | AttemptTimeout
    | ContextCause
    | UpstreamRcode(rcode: int)
    | Upstream(code: int)

  datatype Winner = Completion | Timer | Cancellation

  datatype Attempt = Attempt(
    doneAfter: nat,            // when the upstream call finishes
    response: Option<Msg>,     // what it leaves in the private query context
    err: Option<Error>,        // what it returns
    cancelAfter: Option<nat>,  // when the caller's context ends, if it does
    seenCancelled: bool,       // the context ended just after the select
    winner: Winner)            // the case taken by the select

  /** The select takes a case that is ready first; ties go either way. */
  predicate ValidAttempt(a: Attempt, timeout: nat) {
    var cancelledBy := (t: nat) => a.cancelAfter.Some? && a.cancelAfter.value < t;
    match a.winner
    case Completion => a.doneAfter <= timeout && !cancelledBy(a.doneAfter)
    case Timer => timeout <= a.doneAfter && !cancelledBy(timeout)
    case Cancellation =>
      a.cancelAfter.Some? && a.cancelAfter.value <= timeout && a.cancelAfter.value <= a.doneAfter
  }

  function Elapsed(a: Attempt, timeout: nat): nat {
    match a.winner
    case Completion => a.doneAfter
    case Timer => timeout
    case Cancellation => if a.cancelAfter.Some? then a.cancelAfter.value else 0
  }

  function AttemptOnce(a: Attempt): (Option<Msg>, Option<Error>) {
    match a.winner
    case Completion => (a.response, a.err)
    case Timer => (None, Some(AttemptTimeout))
    case Cancellation => (None, Some(ContextCause))
  }

  predicate ContextEnded(a: Attempt, timeout: nat) {
    a.seenCancelled || (a.cancelAfter.Some? && a.cancelAfter.value <= Elapsed(a, timeout))
  }

  datatype Judgement = Answer(msg: Msg) | BadRcode(rcode: int) | GivenUp | Lost(err: Error)

  /** What the result of one attempt means for the query. */
  function Verdict(response: Option<Msg>, err: Option<Error>, ended: bool, failing: set<int>): Judgement {
    if err.None? && response.Some? then
      if response.value.rcode in failing then BadRcode(response.value.rcode) else Answer(response.value)
    else if ended then GivenUp
    else Lost(if err.Some? then err.value else NoResponse)
  }

  function Judge(a: Attempt, timeout: nat, failing: set<int>): Judgement {
    Verdict(AttemptOnce(a).0, AttemptOnce(a).1, ContextEnded(a, timeout), failing)
  }

  function Judgements(env: seq<Attempt>, timeout: nat, failing: set<int>): (js: seq<Judgement>)
    ensures |js| == |env| && forall i :: 0 <= i < |env| ==> js[i] == Judge(env[i], timeout, failing)
  {
    seq(|env|, i requires 0 <= i < |env| => Judge(env[i], timeout, failing))
  }

  datatype Settlement = Succeeded | Failed(err: Error) | Abandoned

  /** The promise of `Exec`: every attempt but the last was lost without a verdict, and the
      last one decides; only a lost attempt is ever retried, and not beyond the budget. */
  predicate Decides(js: seq<Judgement>, budget: nat, settled: Settlement, response: Option<Msg>) {
    && 1 <= |js| <= budget
    && (forall i :: 0 <= i < |js| - 1 ==> js[i].Lost?)
    && match js[|js| - 1]
       case Answer(m) => settled == Succeeded && response == Some(m)
       case BadRcode(c) => settled == Failed(UpstreamRcode(c)) && response == None
       case GivenUp => settled == Abandoned && response == None
       case Lost(e) => |js| == budget && settled == Failed(e) && response == None
  }

  datatype Report = Report(settled: Settlement, response: Option<Msg>, calls: nat, elapsed: nat)

  function SumElapsed(env: seq<Attempt>, timeout: nat): nat {
    if env == [] then 0 else SumElapsed(Front(env), timeout) + Elapsed(Last(env), timeout)
  }

  predicate Explains(env: seq<Attempt>, timeout: nat, failing: set<int>, budget: nat, r: Report) {
    && r.calls <= |env|
    && Decides(Judgements(env[..r.calls], timeout, failing), budget, r.settled, r.response)
    && r.elapsed == SumElapsed(env[..r.calls], timeout)
  }

  /** The promise pins the outcome down completely. */
  lemma OutcomeUnique(env: seq<Attempt>, timeout: nat, failing: set<int>, budget: nat, r: Report, r': Report)
    requires Explains(env, timeout, failing, budget, r)
    requires Explains(env, timeout, failing, budget, r')
    ensures r == r'
  {
    var js, js' := Judgements(env[..r.calls], timeout, failing), Judgements(env[..r'.calls], timeout, failing);
    assert js[r.calls - 1] == Judge(env[r.calls - 1], timeout, failing);
    assert js'[r'.calls - 1] == Judge(env[r'.calls - 1], timeout, failing);
  }

  /** Exec answers with a response exactly when it reports success, and that response
      never carries a failing rcode. */
  lemma SettlesOnce(env: seq<Attempt>, timeout: nat, failing: set<int>, budget: nat, r: Report)
    requires Explains(env, timeout, failing, budget, r)
    ensures r.settled == Succeeded <==> r.response.Some?
    ensures r.response.Some? ==> r.response.value.rcode !in failing
    ensures r.settled == Abandoned ==> ContextEnded(env[r.calls - 1], timeout)
    ensures r.settled.Failed? && r.calls < budget ==> r.settled.err.UpstreamRcode?
  {
    var js := Judgements(env[..r.calls], timeout, failing);
    assert js[r.calls - 1] == Judge(env[r.calls - 1], timeout, failing);
  }

  // ---------- in terms of what happened ----------

  /** The upstream call was over first, without an error, and left this response. */
  predicate Replied(a: Attempt, m: Msg) {
    a.winner.Completion? && a.err == None && a.response == Some(m)
  }

  predicate NoReply(a: Attempt) {
    a.winner.Completion? ==> a.err.Some? || a.response.None?
  }

  /** The caller's context was over by the end of the attempt, or just after. */
  predicate Over(a: Attempt, timeout: nat) {
    || a.seenCancelled
    || match a.winner
       case Completion => a.cancelAfter.Some? && a.cancelAfter.value <= a.doneAfter
       case Timer => a.cancelAfter.Some? && a.cancelAfter.value <= timeout
       case Cancellation => true
  }

  /** The error an attempt without a reply leaves behind. */
  predicate LeavesError(a: Attempt, e: Error) {
    match a.winner
    case Completion => if a.err.Some? then a.err == Some(e) else e == NoResponse
    case Timer => e == AttemptTimeout
    case Cancellation => e == ContextCause
  }

  ghost predicate Happened(env: seq<Attempt>, timeout: nat) {
    forall i :: 0 <= i < |env| ==> ValidAttempt(env[i], timeout)
  }

  lemma JudgedAt(env: seq<Attempt>, timeout: nat, failing: set<int>, budget: nat, r: Report, i: nat)
    requires Explains(env, timeout, failing, budget, r) && i < r.calls
    ensures i < r.calls - 1 ==> Judge(env[i], timeout, failing).Lost?
    ensures i == r.calls - 1 ==> Decides([Judge(env[i], timeout, failing)], 1, r.settled, r.response)
                                 && (Judge(env[i], timeout, failing).Lost? ==> r.calls == budget)
  {
    var js := Judgements(env[..r.calls], timeout, failing);
    assert js[i] == Judge(env[i], timeout, failing);
  }

  /** Retries, exactly: an attempt is followed by another if and only if it brought no reply,
      the context was not over, and attempts are left. In particular a reply is never retried,
      whatever its rcode. */
  lemma RetriedExactly(env: seq<Attempt>, timeout: nat, failing: set<int>, budget: nat, r: Report, i: nat)
    requires Happened(env, timeout) && Explains(env, timeout, failing, budget, r) && i < r.calls
    ensures i + 1 < r.calls <==> NoReply(env[i]) && !Over(env[i], timeout) && i + 1 < budget
  {
    JudgedAt(env, timeout, failing, budget, r, i);
  }

  /** The last attempt decides: a reply with an acceptable rcode is the answer, one with a failing
      rcode a failure of that rcode; without a reply the query is abandoned if the context was
      over, and otherwise has used up its attempts and fails with the last error. */
  lemma LastAttemptDecides(env: seq<Attempt>, timeout: nat, failing: set<int>, budget: nat, r: Report)
    requires Happened(env, timeout) && Explains(env, timeout, failing, budget, r)
    ensures 1 <= r.calls <= budget
    ensures var a := env[r.calls - 1];
            && (forall m :: Replied(a, m) && m.rcode !in failing ==> r.settled == Succeeded && r.response == Some(m))
            && (forall m :: Replied(a, m) && m.rcode in failing ==>
                  r.settled == Failed(UpstreamRcode(m.rcode)) && r.response == None)
            && (NoReply(a) && Over(a, timeout) ==> r.settled == Abandoned && r.response == None)
            && (NoReply(a) && !Over(a, timeout) ==>
                  && r.calls == budget && r.response == None
                  && exists e :: r.settled == Failed(e) && LeavesError(a, e))
  {
    JudgedAt(env, timeout, failing, budget, r, r.calls - 1);
    var a := env[r.calls - 1];
    if NoReply(a) && !Over(a, timeout) {
      assert LeavesError(a, r.settled.err);
    }
  }

  /** The time of an attempt is that of whatever came first: the end of the upstream call, the
      time-out or the end of the context. */
  lemma ElapsedIsEarliest(a: Attempt, timeout: nat)
    requires ValidAttempt(a, timeout)
    ensures Elapsed(a, timeout) <= a.doneAfter && Elapsed(a, timeout) <= timeout
    ensures a.cancelAfter.Some? ==> Elapsed(a, timeout) <= a.cancelAfter.value
    ensures Elapsed(a, timeout) in {a.doneAfter, timeout} || a.cancelAfter == Some(Elapsed(a, timeout))
  {
  }

  lemma {:induction false} ElapsedWithinTimeouts(env: seq<Attempt>, timeout: nat)
    requires forall i :: 0 <= i < |env| ==> ValidAttempt(env[i], timeout)
    ensures SumElapsed(env, timeout) <= |env| * timeout
  {
    if env == [] {
    } else {
      ElapsedWithinTimeouts(Front(env), timeout);
      assert ValidAttempt(Last(env), timeout);
      assert |env| * timeout == |Front(env)| * timeout + timeout;
    }
  }

  lemma MoreTimeouts(a: nat, b: nat, timeout: nat)
    requires a <= b
    ensures a * timeout <= b * timeout
  {
    assert b * timeout == a * timeout + (b - a) * timeout;
  }

  /** Exec never takes longer than its attempts' timeouts together. */
  lemma ExecBounded(env: seq<Attempt>, timeout: nat, failing: set<int>, budget: nat, r: Report)
    requires forall i :: 0 <= i < |env| ==> ValidAttempt(env[i], timeout)
    requires Explains(env, timeout, failing, budget, r)
    ensures r.elapsed <= r.calls * timeout <= budget * timeout
  {
    ElapsedWithinTimeouts(env[..r.calls], timeout);
    MoreTimeouts(r.calls, budget, timeout);
  }

  const STANDBY_THRESHOLD_MILLIS := 2000

  /** The shipped circuit options: five failures, two attempts of 800 ms, 1 s to 30 s. */
  const SHIPPED := Args(5, 2, 800, 1000, 30000)

  /** With the shipped options the stand-by branch can never pre-empt a query that the
      circuit is still retrying. */
  lemma StandbyNeverPreempts(env: seq<Attempt>, failing: set<int>, r: Report)
    requires var c := ConfigOf(SHIPPED);
             && (forall i :: 0 <= i < |env| ==> ValidAttempt(env[i], c.attemptTimeout))
             && Explains(env, c.attemptTimeout, failing, c.attempts, r)
    ensures r.elapsed < STANDBY_THRESHOLD_MILLIS * MILLISECOND
  {
    var c := ConfigOf(SHIPPED);
    assert c.attempts == 2 && c.attemptTimeout == 800 * MILLISECOND;
    ExecBounded(env, c.attemptTimeout, failing, c.attempts, r);
  }

  class Plugin {
    const circuit: Circuit
    const attempts: int
    const attemptTimeout: nat
    const failureRCodes: set<int>

    constructor (circuit: Circuit, attempts: int, attemptTimeout: nat, failureRCodes: set<int>)
      ensures this.circuit == circuit && this.attempts == attempts
      ensures this.attemptTimeout == attemptTimeout && this.failureRCodes == failureRCodes
    {
      this.circuit, this.attempts := circuit, attempts;
      this.attemptTimeout, this.failureRCodes := attemptTimeout, failureRCodes;
    }

    /** As many attempts as configured, and at least one. */
    function Budget(): (budget: nat)
      ensures budget == attempts || (budget == 1 && attempts < 1)
      ensures budget >= 1
    {
      if attempts <= 0 then 1 else attempts
    }

    /** The retry loop between the two calls into the circuit. */
    method RunAttempts(env: seq<Attempt>) returns (r: Report)
      requires |env| >= Budget()
      ensures Explains(env, attemptTimeout, failureRCodes, Budget(), r)
    {
      ghost var js := Judgements(env, attemptTimeout, failureRCodes);
      var err := NoResponse;
      var elapsed := 0;
      var attempt := 0;
      while attempt < Budget()
        invariant 0 <= attempt <= Budget()
        invariant forall i :: 0 <= i < attempt ==> js[i].Lost?
        invariant attempt > 0 ==> js[attempt - 1] == Lost(err)
        invariant elapsed == SumElapsed(env[..attempt], attemptTimeout)
      {
        var (response, result) := AttemptOnce(env[attempt]);
        assert Front(env[..attempt + 1]) == env[..attempt];
        assert Judgements(env[..attempt + 1], attemptTimeout, failureRCodes) == js[..attempt + 1];
        elapsed := elapsed + Elapsed(env[attempt], attemptTimeout);
        if result.None? && response.Some? {
          if response.value.rcode !in failureRCodes {
            return Report(Succeeded, response, attempt + 1, elapsed);
          }
          return Report(Failed(UpstreamRcode(response.value.rcode)), None, attempt + 1, elapsed);
        }
        if ContextEnded(env[attempt], attemptTimeout) {
          return Report(Abandoned, None, attempt + 1, elapsed);
        }
        err := if result.None? then NoResponse else result.value;
        attempt := attempt + 1;
      }
      assert Judgements(env[..attempt], attemptTimeout, failureRCodes) == js[..attempt];
      return Report(Failed(err), None, attempt, elapsed);
    }

    /** The breaker after one query, when `others` is what overlapping queries made of it
        between this query's acquire and its settlement. */
    ghost function After(
      b: Breaker, others: Breaker -> Breaker, now: int, settledAt: int, draw: int, r: Report): Breaker
    {
      var (b1, v) := AfterAcquire(b, now);
      if v.Refused? then b
      else
        var met := others(b1);
        match r.settled
        case Succeeded => CLOSED
        case Failed(_) =>
          FailedFor(circuit.Pol(), met, v.permit, settledAt, Delay64(circuit.Pol(), met.step + 1, draw))
        case Abandoned => met
    }

    /** The event with which a query that was admitted by `b` settles. */
    function Settling(b: Breaker, settledAt: int, draw: int, r: Report): Event {
      match r.settled
      case Succeeded => Succeed(PermitFor(b))
      case Failed(_) => Fail(PermitFor(b), settledAt, draw)
      case Abandoned => Abandon(PermitFor(b))
    }

    lemma SettlesAs(
      b: Breaker, w: World, others: Breaker -> Breaker, now: int, settledAt: int, draw: int, r: Report)
      requires ValidPolicy(circuit.Pol()) && Admits(b, now) && w.b == others(AfterAcquire(b, now).0)
      requires ValidEvent(circuit.Pol(), w, Settling(b, settledAt, draw, r))
      ensures Step(circuit.Pol(), w, Settling(b, settledAt, draw, r)).b == After(b, others, now, settledAt, draw, r)
    {
      if Effective(circuit.Pol(), w.b, PermitFor(b)) && r.settled.Failed? {
        Delay64Exact(circuit.Pol(), w.b.step + 1, draw);
      }
    }

    /** Every query is a piece of a run of the breaker: its acquire, whatever the others do, and
        one settlement. What the theorems about runs say holds for the circuit it leaves. */
    lemma ExecRuns(
      es: seq<Event>, cs: seq<Event>, others: Breaker -> Breaker, now: int, settledAt: int, draw: int, r: Report)
      requires ValidPolicy(circuit.Pol()) && ValidRun(circuit.Pol(), es) && now >= At(circuit.Pol(), es).clock
      requires var b := At(circuit.Pol(), es).b;
               Admits(b, now) ==>
                 && Meanwhile(circuit.Pol(), es, now, cs, others(AfterAcquire(b, now).0))
                 && ValidEvent(circuit.Pol(), At(circuit.Pol(), es + [Acquire(now)] + cs),
                               Settling(b, settledAt, draw, r))
      ensures var b := At(circuit.Pol(), es).b;
              var run := es + [Acquire(now)] + if Admits(b, now) then cs + [Settling(b, settledAt, draw, r)] else [];
              ValidRun(circuit.Pol(), run)
              && At(circuit.Pol(), run).b == After(b, others, now, settledAt, draw, r)
    {
      var pol := circuit.Pol();
      var b, start := At(pol, es).b, es + [Acquire(now)];
      AcquireRuns(pol, es, now);
      if Admits(b, now) {
        var w, e := At(pol, start + cs), Settling(b, settledAt, draw, r);
        Extend(pol, INIT, start + cs, e);
        assert start + (cs + [e]) == start + cs + [e];
        SettlesAs(b, w, others, now, settledAt, draw, r);
      } else {
        assert start + [] == start;
      }
    }

    /** `Exec` with whatever overlapping queries do meanwhile, and under any options. */
    method Exec(env: seq<Attempt>, others: Breaker -> Breaker, now: int, settledAt: int, draw: int)
      returns (response: Option<Msg>, err: Option<Error>, ghost r: Report)
      requires |env| >= Budget()
      modifies circuit
      ensures !Admits(old(circuit.State()), now) ==> response == None && err == Some(CircuitOpen)
      ensures Admits(old(circuit.State()), now) ==>
                && Explains(env, attemptTimeout, failureRCodes, Budget(), r)
                && response == r.response
                && (r.settled == Succeeded ==> err == None)
                && (r.settled.Failed? ==> err == Some(r.settled.err))
                && (r.settled == Abandoned ==> err == Some(ContextCause))
      ensures circuit.State() == After(old(circuit.State()), others, now, settledAt, draw, r)
      ensures response.Some? ==> circuit.State() == CLOSED
      ensures err == None <==> response.Some?
    {
      r := Report(Abandoned, None, 0, 0);
      var permit, allowed := circuit.Acquire(now);
      if !allowed {
        return None, Some(CircuitOpen), r;
      }
      var report := RunAttempts(env);
      r := report;
      circuit.Overlap(others);
      match report.settled
      case Succeeded =>
        response, err := report.response, None;
        circuit.Succeed();
      case Failed(e) =>
        response, err := None, Some(e);
        circuit.Fail(permit, settledAt, draw);
      case Abandoned =>
        response, err := None, Some(ContextCause);
    }
  }
}
