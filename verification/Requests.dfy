/** Overlapping requests over one breaker.
 *
 * Each request acquires, runs its attempts or its exchange, and settles, at any time and in
 * any order. Nothing is assumed here about permits: which ones are outstanding, and that
 * only a cancelled query drops one, follows from what `Exec` and `exchange` do.
 */
module Requests {
  import opened Backoff
  import opened Options
  import opened Sequences
  import opened CircuitExec
  import B = Breaker

  datatype Setup = Setup(pol: B.Policy, timeout: nat, failing: set<int>, budget: nat)

  /** How a request ended: a query through the circuit with its attempts and report, or an
      exchange with a provider, answered or not. */
  datatype Ending = Query(env: seq<Attempt>, r: Report) | Exchange(answer: Option<Msg>)

  datatype Event =
    | Start(id: nat, now: int)
    | End(id: nat, ending: Ending, now: int, draw: int)

  /** The breaker, the last clock reading, and the permit each running request holds. */
  datatype State = State(b: B.Breaker, clock: int, holding: map<nat, B.Permit>)

  const INIT := State(B.CLOSED, 0, map[])

  function SettlementOf(ending: Ending): Settlement {
    match ending
    case Query(_, r) => r.settled
    case Exchange(answer) => if answer.Some? then Succeeded else Failed(NoResponse)
  }

  predicate Enabled(u: Setup, s: State, e: Event) {
    match e
    case Start(id, now) => id !in s.holding && now >= s.clock
    case End(id, ending, now, draw) =>
      && id in s.holding
      && (match ending
          case Query(env, r) => u.pol.mayAbandon && Explains(env, u.timeout, u.failing, u.budget, r)
          case Exchange(_) => !u.pol.mayAbandon)
      && (SettlementOf(ending).Failed? ==>
            && now >= s.clock
            && (B.Effective(u.pol, s.b, s.holding[id]) ==> LegalDraw(B.NominalAt(u.pol, s.b.step + 1), draw)))
  }

  function Step(u: Setup, s: State, e: Event): State
    requires Enabled(u, s, e)
  {
    match e
    case Start(id, now) =>
      var (b, v) := B.AfterAcquire(s.b, now);
      State(b, now, if v.Granted? then s.holding[id := v.permit] else s.holding)
    case End(id, ending, now, draw) =>
      var rest := s.holding - {id};
      match SettlementOf(ending)
      case Succeeded => State(B.CLOSED, s.clock, rest)
      case Failed(_) => State(B.AfterFail(u.pol, s.b, s.holding[id], now, draw), now, rest)
      case Abandoned => State(s.b, s.clock, rest)
  }

  predicate ValidRun(u: Setup, es: seq<Event>)
    decreases |es|, 0
  {
    es == [] || (ValidRun(u, Front(es)) && Enabled(u, At(u, Front(es)), Last(es)))
  }

  function At(u: Setup, es: seq<Event>): State
    requires ValidRun(u, es)
    decreases |es|, 1
  {
    if es == [] then INIT else Step(u, At(u, Front(es)), Last(es))
  }

  // ---------- the breaker run behind it ----------

  /** The breaker event a request event amounts to. */
  function Projected(s: State, e: Event): B.Event
    requires e.End? ==> e.id in s.holding
  {
    match e
    case Start(_, now) => B.Acquire(now)
    case End(id, ending, now, draw) =>
      match SettlementOf(ending)
      case Succeeded => B.Succeed(s.holding[id])
      case Failed(_) => B.Fail(s.holding[id], now, draw)
      case Abandoned => B.Abandon(s.holding[id])
  }

  function Projection(u: Setup, es: seq<Event>): (bs: seq<B.Event>)
    requires ValidRun(u, es)
    ensures |bs| == |es|
  {
    if es == [] then []
    else Projection(u, Front(es)) + [Projected(At(u, Front(es)), Last(es))]
  }

  function Holders(holding: map<nat, B.Permit>, p: B.Permit): set<nat> {
    set id | id in holding && holding[id] == p
  }

  /** The permits of a multiset are those the requests hold. */
  ghost predicate Held(holding: map<nat, B.Permit>, permits: multiset<B.Permit>) {
    forall p: B.Permit :: permits[p] == |Holders(holding, p)|
  }

  ghost predicate Matches(s: State, w: B.World) {
    s.b == w.b && s.clock == w.clock && Held(s.holding, w.outstanding)
  }

  lemma HoldersAdd(holding: map<nat, B.Permit>, id: nat, q: B.Permit, p: B.Permit)
    requires id !in holding
    ensures |Holders(holding[id := q], p)| == |Holders(holding, p)| + if p == q then 1 else 0
  {
    assert Holders(holding[id := q], p) == Holders(holding, p) + if p == q then {id} else {};
  }

  lemma HoldersRemove(holding: map<nat, B.Permit>, id: nat, p: B.Permit)
    requires id in holding
    ensures |Holders(holding - {id}, p)| == |Holders(holding, p)| - if p == holding[id] then 1 else 0
  {
    assert Holders(holding - {id}, p) == Holders(holding, p) - if p == holding[id] then {id} else {};
    assert p == holding[id] ==> id in Holders(holding, p);
  }

  lemma HeldAdd(holding: map<nat, B.Permit>, permits: multiset<B.Permit>, id: nat, q: B.Permit)
    requires Held(holding, permits) && id !in holding
    ensures Held(holding[id := q], permits + multiset{q})
  {
    forall p: B.Permit
      ensures (permits + multiset{q})[p] == |Holders(holding[id := q], p)|
    {
      HoldersAdd(holding, id, q, p);
    }
  }

  lemma HeldRemove(holding: map<nat, B.Permit>, permits: multiset<B.Permit>, id: nat)
    requires Held(holding, permits) && id in holding
    ensures holding[id] in permits
    ensures Held(holding - {id}, permits - multiset{holding[id]})
  {
    var q := holding[id];
    assert id in Holders(holding, q);
    forall p: B.Permit
      ensures (permits - multiset{q})[p] == |Holders(holding - {id}, p)|
    {
      HoldersRemove(holding, id, p);
    }
  }

  lemma HeldNone(permits: multiset<B.Permit>)
    requires Held(map[], permits)
    ensures permits == multiset{}
  {
    forall p: B.Permit
      ensures permits[p] == 0
    {
      assert Holders(map[], p) == {};
    }
  }

  lemma MatchesStep(u: Setup, s: State, w: B.World, e: Event)
    requires Enabled(u, s, e) && Matches(s, w)
    ensures B.ValidEvent(u.pol, w, Projected(s, e))
    ensures Matches(Step(u, s, e), B.Step(u.pol, w, Projected(s, e)))
  {
    match e
    case Start(id, now) =>
      var v := B.AfterAcquire(s.b, now).1;
      if v.Granted? {
        HeldAdd(s.holding, w.outstanding, id, v.permit);
      }
    case End(id, _, _, _) =>
      HeldRemove(s.holding, w.outstanding, id);
  }

  lemma Extend(u: Setup, es: seq<Event>, e: Event)
    requires ValidRun(u, es) && Enabled(u, At(u, es), e)
    ensures ValidRun(u, es + [e]) && At(u, es + [e]) == Step(u, At(u, es), e)
  {
    assert Front(es + [e]) == es;
  }

  /** Every run of overlapping requests is a run of the breaker protocol, in which the permits
      outstanding are exactly those held by the requests still running. */
  lemma {:induction false} ProjectsToBreaker(u: Setup, es: seq<Event>)
    requires ValidRun(u, es)
    ensures B.ValidRun(u.pol, Projection(u, es))
    ensures Matches(At(u, es), B.At(u.pol, Projection(u, es)))
    decreases |es|
  {
    if es == [] {
    } else {
      ProjectsToBreaker(u, Front(es));
      var s, before := At(u, Front(es)), Projection(u, Front(es));
      MatchesStep(u, s, B.At(u.pol, before), Last(es));
      B.Extend(u.pol, B.INIT, before, Projected(s, Last(es)));
    }
  }

  // ---------- who abandons, and what follows ----------

  /** The request ended by the cancellation return: the context ended during its last attempt. */
  predicate Cancelled(u: Setup, e: Event) {
    && e.End? && e.ending.Query?
    && var r := e.ending.r;
       && 1 <= r.calls <= |e.ending.env|
       && Judge(e.ending.env[r.calls - 1], u.timeout, u.failing) == GivenUp
  }

  /** A permit is abandoned by cancelled queries and by nothing else. */
  lemma AbandonedExactly(u: Setup, s: State, e: Event)
    requires Enabled(u, s, e)
    ensures Projected(s, e).Abandon? <==> Cancelled(u, e)
  {
    if e.End? && e.ending.Query? {
      var r := e.ending.r;
      var js := Judgements(e.ending.env[..r.calls], u.timeout, u.failing);
      assert js[r.calls - 1] == Judge(e.ending.env[r.calls - 1], u.timeout, u.failing);
    }
  }

  predicate Answered(ending: Ending) {
    match ending
    case Query(_, r) => r.response.Some?
    case Exchange(answer) => answer.Some?
  }

  /** A request reports a success if and only if it was answered, and a failure if and only if it was
      neither answered nor cancelled. */
  lemma SettlesExactly(u: Setup, s: State, e: Event)
    requires Enabled(u, s, e) && e.End?
    ensures Projected(s, e).Succeed? <==> Answered(e.ending)
    ensures Projected(s, e).Fail? <==> !Answered(e.ending) && !Cancelled(u, e)
  {
    AbandonedExactly(u, s, e);
    if e.ending.Query? {
      SettlesOnce(e.ending.env, u.timeout, u.failing, u.budget, e.ending.r);
    }
  }

  /** A query that alone holds the probe the breaker waits for is cancelled. */
  predicate CancelsLastProbe(u: Setup, s: State, e: Event) {
    && Cancelled(u, e) && s.b.probing
    && e.id in s.holding && s.holding[e.id] == B.PROBE && Holders(s.holding, B.PROBE) == {e.id}
  }

  /** Since the last successful request, a query was cancelled that alone held the probe. */
  predicate LastProbeCancelled(u: Setup, es: seq<Event>)
    requires ValidRun(u, es)
  {
    && es != []
    && !(Last(es).End? && SettlementOf(Last(es).ending) == Succeeded)
    && (CancelsLastProbe(u, At(u, Front(es)), Last(es)) || LastProbeCancelled(u, Front(es)))
  }

  lemma OnlyHolder(holding: map<nat, B.Permit>, id: nat)
    requires id in holding && holding[id] == B.PROBE
    ensures |Holders(holding, B.PROBE)| == 1 <==> Holders(holding, B.PROBE) == {id}
  {
    var others := Holders(holding, B.PROBE) - {id};
    assert Holders(holding, B.PROBE) == others + {id};
    assert others == {} <==> |others| == 0;
  }

  lemma DropsExactly(u: Setup, s: State, w: B.World, e: Event)
    requires Enabled(u, s, e) && Matches(s, w)
    ensures B.DropsLastProbe(w, Projected(s, e)) <==> CancelsLastProbe(u, s, e)
  {
    AbandonedExactly(u, s, e);
    assert w.outstanding[B.PROBE] == |Holders(s.holding, B.PROBE)|;
    if Cancelled(u, e) && s.holding[e.id] == B.PROBE {
      OnlyHolder(s.holding, e.id);
    }
  }

  lemma {:induction false} DroppedIsCancelled(u: Setup, es: seq<Event>)
    requires ValidRun(u, es) && B.ValidRun(u.pol, Projection(u, es))
    ensures B.DroppedSinceSuccess(u.pol, Projection(u, es)) <==> LastProbeCancelled(u, es)
    decreases |es|
  {
    if es == [] {
    } else {
      var before := Projection(u, Front(es));
      assert Front(Projection(u, es)) == before;
      DroppedIsCancelled(u, Front(es));
      ProjectsToBreaker(u, Front(es));
      DropsExactly(u, At(u, Front(es)), B.At(u.pol, before), Last(es));
    }
  }

  /** Automatic recovery, exact condition for requests: once none is running, every new one is
      admitted from retryAt on if and only if no query that alone held the probe has been
      cancelled since the last success. */
  lemma RequestsRecoverExactly(u: Setup, es: seq<Event>, now: int)
    requires B.ValidPolicy(u.pol) && ValidRun(u, es)
    requires At(u, es).holding == map[] && now >= At(u, es).b.retryAt
    ensures B.Admits(At(u, es).b, now) <==> !LastProbeCancelled(u, es)
  {
    ProjectsToBreaker(u, es);
    HeldNone(B.At(u.pol, Projection(u, es)).outstanding);
    B.RecoveryExactly(u.pol, Projection(u, es), now);
    DroppedIsCancelled(u, es);
  }

  lemma {:induction false} NoneAbandoned(u: Setup, es: seq<Event>)
    requires ValidRun(u, es) && forall i :: 0 <= i < |es| ==> !Cancelled(u, es[i])
    ensures B.Abandon(B.PROBE) !in Projection(u, es)
    decreases |es|
  {
    if es == [] {
    } else {
      NoneAbandoned(u, Front(es));
      AbandonedExactly(u, At(u, Front(es)), Last(es));
      assert !Cancelled(u, es[|es| - 1]);
    }
  }

  /** In particular, as long as no query is cancelled, then once no request
      is running every new one is admitted from retryAt on. */
  lemma RequestsRecover(u: Setup, es: seq<Event>, now: int)
    requires B.ValidPolicy(u.pol) && ValidRun(u, es)
    requires forall i :: 0 <= i < |es| ==> !Cancelled(u, es[i])
    requires At(u, es).holding == map[] && now >= At(u, es).b.retryAt
    ensures B.Admits(At(u, es).b, now)
  {
    ProjectsToBreaker(u, es);
    NoneAbandoned(u, es);
    HeldNone(B.At(u.pol, Projection(u, es)).outstanding);
    B.Recovers(u.pol, Projection(u, es), now);
  }

  /** One attempt whose context is cancelled at once. */
  const CANCELLED_ATTEMPT := Attempt(1, None, None, Some(0), false, Cancellation)

  const CANCELLED_REPORT := Report(Abandoned, None, 1, 0)

  lemma CancelledAttemptExplained(timeout: nat, failing: set<int>, budget: nat)
    requires budget >= 1
    ensures ValidAttempt(CANCELLED_ATTEMPT, timeout)
    ensures Explains([CANCELLED_ATTEMPT], timeout, failing, budget, CANCELLED_REPORT)
  {
    var env := [CANCELLED_ATTEMPT];
    assert env[..1] == env && Front(env) == [];
    assert Judgements(env, timeout, failing)[0] == GivenUp;
  }

  /** And with a cancellation: an open circuit with no query running, a query that gets the
      probe and is cancelled at once, and no query is ever admitted again. */
  lemma CancelledQueryWedges(u: Setup, es: seq<Event>, id: nat, now: int)
    requires B.ValidPolicy(u.pol) && u.pol.mayAbandon && u.budget >= 1 && ValidRun(u, es)
    requires At(u, es).b.step > 0 && At(u, es).holding == map[]
    requires now >= At(u, es).clock && B.Admits(At(u, es).b, now)
    ensures var later := es + [Start(id, now)] + [End(id, Query([CANCELLED_ATTEMPT], CANCELLED_REPORT), now, 0)];
            && ValidRun(u, later) && B.ValidRun(u.pol, Projection(u, later))
            && !B.Recoverable(u.pol, B.At(u.pol, Projection(u, later)))
  {
    var s := At(u, es);
    var start, end := Start(id, now), End(id, Query([CANCELLED_ATTEMPT], CANCELLED_REPORT), now, 0);
    CancelledAttemptExplained(u.timeout, u.failing, u.budget);
    Extend(u, es, start);
    assert At(u, es + [start]).holding == map[id := B.PROBE];
    Extend(u, es + [start], end);
    var later := es + [start] + [end];
    assert At(u, later).holding == map[];
    ProjectsToBreaker(u, later);
    var w := B.At(u.pol, Projection(u, later));
    HeldNone(w.outstanding);
    B.RecoverableIffNotWedged(u.pol, w);
  }
}
