/** The DoH bridge: provider backoff, exchanges and ordered failover.
 *
 * What a provider answers, when a request's deadline expires and what other requests do
 * to a breaker in the meantime are all left to the environment.
 */
module Doh {
  import opened Backoff
  import opened Breaker
  import opened Sequences
  import opened Options

  const THRESHOLD := 2

  const DOH := Policy(THRESHOLD, SECOND, DOH_MAXIMUM, true, false)

  // ---------- provider recovery ----------

  lemma {:induction false} NothingAbandoned(es: seq<Event>)
    requires ValidRun(DOH, es)
    ensures Abandon(PROBE) !in es
    decreases |es|
  {
    if es == [] {
    } else {
      NothingAbandoned(Front(es));
      assert es == Front(es) + [Last(es)];
    }
  }

  /** No provider is parked forever: in every reachable state a probe is awaited only while
      one is in flight, the wait ends at most five minutes after the failure that started
      it, with nothing in flight every request from then on is admitted, and recovery is
      always possible. */
  lemma ProviderRecovers(es: seq<Event>, now: int)
    requires ValidRun(DOH, es)
    ensures var w := At(DOH, es);
            && (w.b.probing ==> PROBE in w.outstanding)
            && (w.b.step > 0 ==> w.b.retryAt <= LastArmed(DOH, es) + 5 * MINUTE)
            && (w.outstanding == multiset{} && now >= w.b.retryAt ==> Admits(w.b, now))
            && Recoverable(DOH, w)
  {
    NothingAbandoned(es);
    RetryBounded(DOH, es);
    Recovers(DOH, es, At(DOH, es).b.retryAt);
    RecoverableIffNotWedged(DOH, At(DOH, es));
  }

  /** Every failure reported since the last success, of probes and plain requests alike. */
  function AllFailures(es: seq<Event>): nat {
    if es == [] || Last(es).Succeed? then 0
    else AllFailures(Front(es)) + if Last(es).Fail? then 1 else 0
  }

  lemma {:induction false} AllAreCounted(es: seq<Event>)
    ensures FailuresSinceSuccess(DOH, es) == AllFailures(es)
  {
    if es == [] {
    } else {
      AllAreCounted(Front(es));
    }
  }

  /** A provider is in backoff exactly when two failures of any kind have been reported
      since its last success. */
  lemma ProviderOpens(es: seq<Event>)
    requires ValidRun(DOH, es)
    ensures At(DOH, es).b.step > 0 <==> AllFailures(es) >= 2
    ensures At(DOH, es).b.failures == Min(AllFailures(es), 2)
  {
    OpeningByHistory(DOH, es);
    AllAreCounted(es);
  }

  // ---------- the provider object ----------

  datatype Result = Success | Failure | Skip

  /** What one exchange finds and draws: the clock readings of its acquire and its failure,
      the provider's answer if any, the jitter drawn for that failure, and what overlapping
      requests make of the breaker before its acquire and between acquire and settlement. */
  datatype Visit = Visit(
    now: int,
    outcome: Option<Msg>,
    settledAt: int,
    draw: int,
    before: Breaker -> Breaker,
    others: Breaker -> Breaker)

  /** A provider's breaker right after an exchange. */
  function AfterExchange(b: Breaker, v: Visit): Breaker {
    var (b1, verdict) := AfterAcquire(b, v.now);
    if verdict.Refused? then b
    else if v.outcome.Some? then CLOSED
    else AfterFail(DOH, v.others(b1), verdict.permit, v.settledAt, v.draw)
  }

  /** The draw is one the provider can get, if its exchange arms the timer. */
  predicate LegalVisit(b: Breaker, v: Visit) {
    var (b1, verdict) := AfterAcquire(b, v.now);
    verdict.Granted? && Effective(DOH, v.others(b1), verdict.permit) ==>
      LegalDraw(NominalAt(DOH, v.others(b1).step + 1), v.draw)
  }

  class Upstream {
    const hasDialCache: bool  // only a bootstrapped provider has addresses to invalidate
    var backoffStep: nat
    var failures: nat
    var retryAt: int
    var probing: bool

    ghost function State(): Breaker
      reads this
    {
      Breaker(failures, backoffStep, retryAt, probing)
    }

    constructor (hasDialCache: bool)
      ensures this.hasDialCache == hasDialCache && State() == INIT.b
    {
      this.hasDialCache := hasDialCache;
      backoffStep, failures, retryAt, probing := 0, 0, 0, false;
    }

    method Acquire(now: int) returns (permit: Permit, allowed: bool)
      modifies this
      ensures (State(), if allowed then Granted(permit) else Refused) == AfterAcquire(old(State()), now)
    {
      if backoffStep == 0 {
        return PLAIN, true;
      }
      if now < retryAt || probing {
        return PLAIN, false;
      }
      probing := true;
      return PROBE, true;
    }

    method Fail(permit: Permit, now: int, draw: int)
      requires Effective(DOH, State(), permit) ==> LegalDraw(NominalAt(DOH, backoffStep + 1), draw)
      modifies this
      ensures State() == AfterFail(DOH, old(State()), permit, now, draw)
    {
      if backoffStep == 0 {
        failures := failures + 1;
        if failures < THRESHOLD {
          return;
        }
        backoffStep := 1;
      } else if permit.probe && probing {
        backoffStep := backoffStep + 1;
      } else {
        return;
      }
      probing := false;
      NominalPositive(SECOND, DOH_MAXIMUM, backoffStep);
      var delay := JitterDoHBackoff(backoffStep, draw);
      retryAt := now + delay;
    }

    method Succeed()
      modifies this
      ensures State() == CLOSED
    {
      backoffStep := 0;
      failures := 0;
      retryAt := 0;
      probing := false;
    }

    /** What overlapping requests do to the breaker between two calls of one request. */
    method Overlap(others: Breaker -> Breaker)
      modifies this
      ensures State() == others(old(State()))
    {
      var b := others(Breaker(failures, backoffStep, retryAt, probing));
      failures, backoffStep, retryAt, probing := b.failures, b.step, b.retryAt, b.probing;
    }

    /** `exchange`, with whatever other requests do meanwhile. It always settles what it
        acquired, contacts nobody when refused, and drops the cached dial addresses, if there
        are any, exactly when the exchange fails. */
    method Exchange(v: Visit) returns (answer: Option<Msg>, recorded: Result, contacted: bool, invalidated: bool)
      requires LegalVisit(State(), v)
      modifies this
      ensures contacted == Admits(old(State()), v.now)
      ensures answer == if contacted then v.outcome else None
      ensures recorded == if !contacted then Skip else if v.outcome.Some? then Success else Failure
      ensures invalidated == (hasDialCache && recorded == Failure)
      ensures State() == AfterExchange(old(State()), v)
      ensures answer.Some? ==> State() == CLOSED
      ensures !contacted ==> State() == old(State())
    {
      var permit, allowed := Acquire(v.now);
      contacted, invalidated := allowed, false;
      if !allowed {
        return None, Skip, contacted, invalidated;
      }
      Overlap(v.others);
      answer := v.outcome;
      if answer.None? {
        invalidated := hasDialCache;
        Fail(permit, v.settledAt, v.draw);
        recorded := Failure;
      } else {
        Succeed();
        recorded := Success;
      }
    }
  }

  /** The event with which an exchange that was admitted by `b` settles. */
  function Settling(b: Breaker, v: Visit): Event {
    if v.outcome.Some? then Succeed(PermitFor(b)) else Fail(PermitFor(b), v.settledAt, v.draw)
  }

  /** Every exchange is a piece of a run of the breaker: its acquire, whatever the others do, and
      one settlement, a success exactly when the provider answered. What `ProviderRecovers` and
      `ProviderOpens` say holds for the provider it leaves. */
  lemma ExchangeRuns(es: seq<Event>, cs: seq<Event>, v: Visit)
    requires ValidRun(DOH, es) && v.now >= At(DOH, es).clock
    requires var b := At(DOH, es).b;
             Admits(b, v.now) ==>
               && Meanwhile(DOH, es, v.now, cs, v.others(AfterAcquire(b, v.now).0))
               && ValidEvent(DOH, At(DOH, es + [Acquire(v.now)] + cs), Settling(b, v))
    ensures var b := At(DOH, es).b;
            var run := es + [Acquire(v.now)] + if Admits(b, v.now) then cs + [Settling(b, v)] else [];
            ValidRun(DOH, run) && At(DOH, run).b == AfterExchange(b, v)
  {
    var b, start := At(DOH, es).b, es + [Acquire(v.now)];
    AcquireRuns(DOH, es, v.now);
    if Admits(b, v.now) {
      var e := Settling(b, v);
      Extend(DOH, INIT, start + cs, e);
      assert start + (cs + [e]) == start + cs + [e];
    } else {
      assert start + [] == start;
    }
  }

  // ---------- ordered failover ----------

  /** One provider's turn: the state its breaker happens to be in when the request reaches
      it, what the provider would answer, and whether the five-second deadline has expired
      by the end of the turn. */
  datatype Turn = Turn(b: Breaker, now: int, answer: Option<Msg>, expired: bool)

  predicate Answers(t: Turn) {
    Admits(t.b, t.now) && t.answer.Some?
  }

  datatype Reply = Response(msg: Msg) | ServFail

  /** The providers contacted among the first `n` turns, in order. */
  function Contacts(turns: seq<Turn>, n: nat): seq<nat>
    requires n <= |turns|
  {
    if n == 0 then []
    else Contacts(turns, n - 1) + if Admits(turns[n - 1].b, turns[n - 1].now) then [n - 1] else []
  }

  /** The promise of `ServeDNS` for the turns of one request: exactly one message is written.
      It is a provider's answer if and only if the last provider tried gave one; every
      earlier provider was refused by its breaker or failed, and SERVFAIL means the list or
      the deadline ran out. */
  ghost predicate Failover(turns: seq<Turn>, written: seq<Reply>, tried: nat, contacted: seq<nat>) {
    && tried <= |turns|
    && (forall i :: 0 <= i < tried - 1 ==> !Answers(turns[i]) && !turns[i].expired)
    && contacted == Contacts(turns, tried)
    && if tried > 0 && Answers(turns[tried - 1])
       then written == [Response(turns[tried - 1].answer.value)]
       else written == [ServFail] && (tried == |turns| || (tried > 0 && turns[tried - 1].expired))
  }

  /** The request is still on its way after `n` turns. */
  ghost predicate Underway(turns: seq<Turn>, n: nat, contacted: seq<nat>) {
    && n <= |turns|
    && (forall i :: 0 <= i < n ==> !Answers(turns[i]) && !turns[i].expired)
    && contacted == Contacts(turns, n)
  }

  /** One more turn either ends the request as promised or leaves it on its way. */
  lemma TurnTaken(turns: seq<Turn>, n: nat, contacted: seq<nat>, reached: bool, response: Option<Msg>)
    requires Underway(turns, n, contacted) && n < |turns|
    requires reached == Admits(turns[n].b, turns[n].now)
    requires response == if reached then turns[n].answer else None
    ensures var contacted' := if reached then contacted + [n] else contacted;
            if response.Some? then Failover(turns, [Response(response.value)], n + 1, contacted')
            else if turns[n].expired then Failover(turns, [ServFail], n + 1, contacted')
            else Underway(turns, n + 1, contacted')
  {
  }

  lemma RanOut(turns: seq<Turn>, contacted: seq<nat>)
    requires Underway(turns, |turns|, contacted)
    ensures Failover(turns, [ServFail], |turns|, contacted)
  {
  }

  /** `ServeDNS` while other requests use the same providers: each breaker is in whatever state
      the request happens to find. */
  method ServeDNSOverlapping(turns: seq<Turn>) returns (written: seq<Reply>, tried: nat, contacted: seq<nat>)
    ensures Failover(turns, written, tried, contacted)
  {
    written, tried, contacted := [], 0, [];
    while tried < |turns|
      invariant written == [] && Underway(turns, tried, contacted)
    {
      var turn := turns[tried];
      var reached := Admits(turn.b, turn.now);
      var response := if reached then turn.answer else None;
      TurnTaken(turns, tried, contacted, reached, response);
      if reached {
        contacted := contacted + [tried];
      }
      tried := tried + 1;
      if response.Some? {
        written := [Response(response.value)];
        return;
      }
      if turn.expired {
        written := [ServFail];
        return;
      }
    }
    written := [ServFail];
  }

  ghost function States(resolvers: seq<Upstream>): (bs: seq<Breaker>)
    reads resolvers
    ensures |bs| == |resolvers| && forall i :: 0 <= i < |bs| ==> bs[i] == resolvers[i].State()
  {
    seq(|resolvers|, i requires 0 <= i < |resolvers| reads resolvers => resolvers[i].State())
  }

  function TurnOf(b: Breaker, v: Visit, expired: bool): Turn {
    Turn(v.before(b), v.now, v.outcome, expired)
  }

  function TurnsOf(bs: seq<Breaker>, visits: seq<Visit>, expired: seq<bool>): (turns: seq<Turn>)
    requires |visits| == |expired| == |bs|
    ensures |turns| == |bs|
    ensures forall i :: 0 <= i < |bs| ==> turns[i] == TurnOf(bs[i], visits[i], expired[i])
  {
    seq(|bs|, i requires 0 <= i < |bs| => TurnOf(bs[i], visits[i], expired[i]))
  }

  /** A provider's breaker right after its turn, from what it was when the request began. */
  function AfterVisit(b: Breaker, v: Visit): Breaker {
    AfterExchange(v.before(b), v)
  }

  /** The breakers after the first `n` providers have had their exchange, each as its own
      exchange leaves it. */
  function Tried(bs: seq<Breaker>, visits: seq<Visit>, n: nat): (bs': seq<Breaker>)
    requires n <= |bs| == |visits|
    ensures |bs'| == |bs|
    ensures forall i :: n <= i < |bs| ==> bs'[i] == bs[i]
  {
    if n == 0 then bs else Tried(bs, visits, n - 1)[n - 1 := AfterVisit(bs[n - 1], visits[n - 1])]
  }

  lemma {:induction false} TriedAt(bs: seq<Breaker>, visits: seq<Visit>, n: nat, i: nat)
    requires i < n <= |bs| == |visits|
    ensures Tried(bs, visits, n)[i] == AfterVisit(bs[i], visits[i])
  {
    if i == n - 1 {
    } else {
      TriedAt(bs, visits, n - 1, i);
    }
  }

  predicate LegalDraws(bs: seq<Breaker>, visits: seq<Visit>)
    requires |bs| == |visits|
  {
    forall i :: 0 <= i < |bs| ==> LegalVisit(visits[i].before(bs[i]), visits[i])
  }

  /** `exchange` as one step of a request's way through distinct providers, the first `n` of
      which have been tried; `bs` holds the breakers at the start. */
  method VisitProvider(resolvers: seq<Upstream>, visits: seq<Visit>, n: nat, ghost bs: seq<Breaker>)
    returns (answer: Option<Msg>, contacted: bool)
    requires n < |resolvers| == |visits| == |bs|
    requires forall j, k :: 0 <= j < k < |resolvers| ==> resolvers[j] != resolvers[k]
    requires LegalDraws(bs, visits) && States(resolvers) == Tried(bs, visits, n)
    modifies resolvers[n]
    ensures contacted == Admits(visits[n].before(bs[n]), visits[n].now)
    ensures answer == if contacted then visits[n].outcome else None
    ensures States(resolvers) == Tried(bs, visits, n + 1)
  {
    ghost var before := States(resolvers);
    assert before[n] == bs[n] == resolvers[n].State();
    resolvers[n].Overlap(visits[n].before);
    var recorded, invalidated;
    answer, recorded, contacted, invalidated := resolvers[n].Exchange(visits[n]);
    assert States(resolvers) == before[n := AfterVisit(bs[n], visits[n])];
  }

  /** A request that has tried the first `n` providers and is still on its way. */
  ghost predicate OnItsWay(
    resolvers: seq<Upstream>, visits: seq<Visit>, bs: seq<Breaker>, turns: seq<Turn>, n: nat, contacted: seq<nat>)
    reads resolvers
  {
    && n <= |resolvers| == |visits| == |bs| == |turns|
    && (forall j, k :: 0 <= j < k < |resolvers| ==> resolvers[j] != resolvers[k])
    && (forall j :: 0 <= j < |bs| ==> turns[j] == TurnOf(bs[j], visits[j], turns[j].expired))
    && LegalDraws(bs, visits) && States(resolvers) == Tried(bs, visits, n)
    && Underway(turns, n, contacted)
  }

  /** One round of the loop of `ServeDNS`. */
  method TakeTurn(
    resolvers: seq<Upstream>, visits: seq<Visit>, n: nat, before: seq<nat>,
    ghost bs: seq<Breaker>, ghost turns: seq<Turn>)
    returns (response: Option<Msg>, contacted: seq<nat>)
    requires n < |resolvers| && OnItsWay(resolvers, visits, bs, turns, n, before)
    modifies resolvers[n]
    ensures n < |turns| && n < |visits| == |bs| && States(resolvers) == Tried(bs, visits, n + 1)
    ensures if response.Some? then Failover(turns, [Response(response.value)], n + 1, contacted)
            else if turns[n].expired then Failover(turns, [ServFail], n + 1, contacted)
            else OnItsWay(resolvers, visits, bs, turns, n + 1, contacted)
  {
    var reached;
    response, reached := VisitProvider(resolvers, visits, n, bs);
    TurnTaken(turns, n, before, reached, response);
    contacted := if reached then before + [n] else before;
  }

  /** `ServeDNS` over the provider objects, with whatever other requests do to a provider up to
      and during its turn: the same promise, and moreover every provider tried is left as its
      exchange leaves it - closed if it answered, one failure on if it failed, as found if it
      was refused - and the request touches no other. */
  method ServeDNS(resolvers: seq<Upstream>, visits: seq<Visit>, expired: seq<bool>)
    returns (written: seq<Reply>, tried: nat, contacted: seq<nat>)
    requires |visits| == |expired| == |resolvers|
    requires forall i, j :: 0 <= i < j < |resolvers| ==> resolvers[i] != resolvers[j]
    requires LegalDraws(States(resolvers), visits)
    modifies resolvers
    ensures tried <= |resolvers|
    ensures Failover(TurnsOf(old(States(resolvers)), visits, expired), written, tried, contacted)
    ensures States(resolvers) == Tried(old(States(resolvers)), visits, tried)
  {
    ghost var bs := States(resolvers);
    ghost var turns := TurnsOf(bs, visits, expired);
    written, tried, contacted := [], 0, [];
    while tried < |resolvers|
      invariant OnItsWay(resolvers, visits, bs, turns, tried, contacted)
    {
      var response;
      response, contacted := TakeTurn(resolvers, visits, tried, contacted, bs, turns);
      tried := tried + 1;
      if response.Some? {
        written := [Response(response.value)];
        return;
      }
      if expired[tried - 1] {
        written := [ServFail];
        return;
      }
    }
    RanOut(turns, contacted);
    written := [ServFail];
  }

  /** The promise leaves no freedom: no other stopping point satisfies it. */
  lemma FailoverUnique(turns: seq<Turn>, n: nat, m: nat)
    requires n <= m <= |turns|
    requires forall i :: 0 <= i < n - 1 ==> !Answers(turns[i]) && !turns[i].expired
    requires forall i :: 0 <= i < m - 1 ==> !Answers(turns[i]) && !turns[i].expired
    requires n == |turns| || (n > 0 && (turns[n - 1].expired || Answers(turns[n - 1])))
    requires m == |turns| || (m > 0 && (turns[m - 1].expired || Answers(turns[m - 1])))
    ensures n == m
  {
  }

  lemma {:induction false} ContactsOrdered(turns: seq<Turn>, n: nat)
    requires n <= |turns|
    ensures forall i: nat :: i in Contacts(turns, n) <==> i < n && Admits(turns[i].b, turns[i].now)
    ensures forall j, k :: 0 <= j < k < |Contacts(turns, n)| ==> Contacts(turns, n)[j] < Contacts(turns, n)[k]
  {
    if n == 0 {
    } else {
      ContactsOrdered(turns, n - 1);
      var before := Contacts(turns, n - 1);
      assert forall k :: 0 <= k < |before| ==> before[k] in before;
    }
  }
}
