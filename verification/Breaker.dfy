/** The breaker protocol shared by the Mihomo circuit and the DoH providers.
 *
 * Every method of a breaker runs under its mutex, so a program run is a sequence of
 * atomic events. Requests overlap freely: a permit granted in one outage may be settled
 * in a later one, and permits carry no generation number. A `World` is the breaker, the
 * last clock reading taken under the mutex and the multiset of permits still unsettled.
 *
 * The two users differ in two flags of `Policy`: a DoH provider counts the failure of a
 * stale probe while it is closed, and only the circuit can drop a permit unsettled.
 */
module Breaker {
  import opened Backoff
  import opened Sequences

  datatype Policy = Policy(
    threshold: nat,      // counted failures that open the breaker
    initial: int,        // nominal delay of the first outage step
    maximum: int,        // cap of every delay
    countsProbe: bool,   // a probe that fails while the breaker is closed is counted
    mayAbandon: bool)    // a request may return without settling its permit

  predicate ValidPolicy(pol: Policy) {
    && pol.threshold >= 1
    && 5 <= pol.initial <= TWO_62
    && 0 < pol.maximum <= TWO_62
  }

  datatype Permit = Permit(probe: bool)

  const PLAIN := Permit(false)
  const PROBE := Permit(true)

  /** `step == 0` is closed. Time is in nanoseconds; 0 stands for the zero time. */
  datatype Breaker = Breaker(failures: nat, step: nat, retryAt: int, probing: bool)

  const CLOSED := Breaker(0, 0, 0, false)

  datatype Verdict = Granted(permit: Permit) | Refused

  // ---------- the three methods ----------

  function AfterAcquire(b: Breaker, now: int): (Breaker, Verdict) {
    if b.step == 0 then (b, Granted(PLAIN))
    else if now < b.retryAt || b.probing then (b, Refused)
    else (b.(probing := true), Granted(PROBE))
  }

  predicate Admits(b: Breaker, now: int) {
    AfterAcquire(b, now).1.Granted?
  }

  predicate Counted(pol: Policy, p: Permit) {
    !p.probe || pol.countsProbe
  }

  /** The failure (re)arms the retry timer. */
  predicate Effective(pol: Policy, b: Breaker, p: Permit) {
    if b.step == 0 then Counted(pol, p) && b.failures + 1 >= pol.threshold
    else p.probe && b.probing
  }

  function NominalAt(pol: Policy, step: nat): int {
    Nominal(pol.initial, pol.maximum, step)
  }

  function Delay(pol: Policy, step: nat, draw: int): int {
    Jitter(NominalAt(pol, step), pol.maximum, draw)
  }

  function Armed(b: Breaker, retryAt: int): Breaker {
    b.(probing := false, retryAt := retryAt)
  }

  /** A failure, given the delay that it would arm the timer with. */
  function FailedFor(pol: Policy, b: Breaker, p: Permit, now: int, delay: int): Breaker {
    if b.step == 0 then
      if !Counted(pol, p) then b
      else
        var counted := b.(failures := b.failures + 1);
        if counted.failures < pol.threshold then counted
        else Armed(counted.(step := 1), now + delay)
    else if !p.probe || !b.probing then b
    else Armed(b.(step := b.step + 1), now + delay)
  }

  function AfterFail(pol: Policy, b: Breaker, p: Permit, now: int, draw: int): Breaker {
    FailedFor(pol, b, p, now, Delay(pol, b.step + 1, draw))
  }

  // ---------- runs ----------

  datatype World = World(b: Breaker, clock: int, outstanding: multiset<Permit>)

  const INIT := World(CLOSED, 0, multiset{})

  datatype Event =
    | Acquire(now: int)
    | Succeed(p: Permit)
    | Fail(p: Permit, now: int, draw: int)
    | Abandon(p: Permit)

  predicate ValidEvent(pol: Policy, w: World, e: Event) {
    match e
    case Acquire(now) => now >= w.clock
    case Succeed(p) => p in w.outstanding
    case Fail(p, now, draw) =>
      && p in w.outstanding
      && now >= w.clock
      && (Effective(pol, w.b, p) ==> LegalDraw(NominalAt(pol, w.b.step + 1), draw))
    case Abandon(p) => pol.mayAbandon && p in w.outstanding
  }

  function Step(pol: Policy, w: World, e: Event): World
    requires ValidEvent(pol, w, e)
  {
    match e
    case Acquire(now) =>
      var (b, v) := AfterAcquire(w.b, now);
      World(b, now, if v.Granted? then w.outstanding + multiset{v.permit} else w.outstanding)
    case Succeed(p) => World(CLOSED, w.clock, w.outstanding - multiset{p})
    case Fail(p, now, draw) =>
      World(AfterFail(pol, w.b, p, now, draw), now, w.outstanding - multiset{p})
    case Abandon(p) => w.(outstanding := w.outstanding - multiset{p})
  }

  predicate ValidFrom(pol: Policy, w: World, es: seq<Event>)
    decreases |es|, 0
  {
    es == [] || (ValidFrom(pol, w, Front(es)) && ValidEvent(pol, Replay(pol, w, Front(es)), Last(es)))
  }

  function Replay(pol: Policy, w: World, es: seq<Event>): World
    requires ValidFrom(pol, w, es)
    decreases |es|, 1
  {
    if es == [] then w else Step(pol, Replay(pol, w, Front(es)), Last(es))
  }

  predicate ValidRun(pol: Policy, es: seq<Event>) {
    ValidFrom(pol, INIT, es)
  }

  function At(pol: Policy, es: seq<Event>): World
    requires ValidRun(pol, es)
  {
    Replay(pol, INIT, es)
  }

  lemma Extend(pol: Policy, w: World, es: seq<Event>, e: Event)
    requires ValidFrom(pol, w, es) && ValidEvent(pol, Replay(pol, w, es), e)
    ensures ValidFrom(pol, w, es + [e])
    ensures Replay(pol, w, es + [e]) == Step(pol, Replay(pol, w, es), e)
  {
    assert Front(es + [e]) == es;
  }

  /** The permit a breaker grants, if it grants one. */
  function PermitFor(b: Breaker): Permit {
    if b.step == 0 then PLAIN else PROBE
  }

  /** A request acquires at `now` after the run `es`; then other requests do `cs`, and the
      request still holds its permit when the breaker has become `met`. */
  ghost predicate Meanwhile(pol: Policy, es: seq<Event>, now: int, cs: seq<Event>, met: Breaker)
    requires ValidRun(pol, es)
  {
    && now >= At(pol, es).clock
    && ValidRun(pol, es + [Acquire(now)] + cs)
    && At(pol, es + [Acquire(now)] + cs).b == met
    && PermitFor(At(pol, es).b) in At(pol, es + [Acquire(now)] + cs).outstanding
  }

  /** An acquire extends the run; a refused one leaves the breaker alone. */
  lemma AcquireRuns(pol: Policy, es: seq<Event>, now: int)
    requires ValidRun(pol, es) && now >= At(pol, es).clock
    ensures ValidRun(pol, es + [Acquire(now)])
    ensures At(pol, es + [Acquire(now)]).b == AfterAcquire(At(pol, es).b, now).0
    ensures !Admits(At(pol, es).b, now) ==> At(pol, es + [Acquire(now)]).b == At(pol, es).b
    ensures Admits(At(pol, es).b, now) ==> PermitFor(At(pol, es).b) in At(pol, es + [Acquire(now)]).outstanding
  {
    Extend(pol, INIT, es, Acquire(now));
  }

  // ---------- opening by history ----------

  /** Counted failures reported since the last success, read off the events alone. */
  function FailuresSinceSuccess(pol: Policy, es: seq<Event>): nat {
    if es == [] then 0
    else match Last(es)
      case Succeed(_) => 0
      case Fail(p, _, _) => FailuresSinceSuccess(pol, Front(es)) + (if Counted(pol, p) then 1 else 0)
      case _ => FailuresSinceSuccess(pol, Front(es))
  }

  predicate OpenedBy(pol: Policy, b: Breaker, k: nat) {
    && (b.step > 0 <==> k >= pol.threshold)
    && b.failures == Min(k, pol.threshold)
    && (b.probing ==> b.step > 0)
  }

  lemma OpeningStep(pol: Policy, w: World, e: Event, k: nat)
    requires ValidPolicy(pol) && ValidEvent(pol, w, e) && OpenedBy(pol, w.b, k)
    ensures OpenedBy(pol, Step(pol, w, e).b,
                     if e.Succeed? then 0 else if e.Fail? && Counted(pol, e.p) then k + 1 else k)
  {
  }

  /** However requests overlap, the breaker is open exactly when at least `threshold`
      counted failures have been reported since the last success, and its failure
      counter is that number, saturated at the threshold. */
  lemma {:induction false} OpeningByHistory(pol: Policy, es: seq<Event>)
    requires ValidPolicy(pol) && ValidRun(pol, es)
    ensures OpenedBy(pol, At(pol, es).b, FailuresSinceSuccess(pol, es))
    decreases |es|
  {
    if es == [] {
    } else {
      OpeningByHistory(pol, Front(es));
      OpeningStep(pol, At(pol, Front(es)), Last(es), FailuresSinceSuccess(pol, Front(es)));
    }
  }

  /** The clock reading at which the breaker opened: that of the failure that completed
      the threshold. */
  function OpenedAt(pol: Policy, es: seq<Event>): int {
    if es == [] then 0
    else if && Last(es).Fail? && Counted(pol, Last(es).p)
            && FailuresSinceSuccess(pol, Front(es)) + 1 == pol.threshold
    then Last(es).now
    else OpenedAt(pol, Front(es))
  }

  /** Clock readings at which probes were granted since the last success. */
  function ProbeGrants(pol: Policy, es: seq<Event>): seq<int>
    requires ValidRun(pol, es)
  {
    if es == [] then []
    else
      var before := ProbeGrants(pol, Front(es));
      match Last(es)
      case Acquire(now) =>
        if AfterAcquire(At(pol, Front(es)).b, now).1 == Granted(PROBE) then before + [now] else before
      case Succeed(_) => []
      case _ => before
  }

  /** The clock reading of the last failure that armed the retry timer. */
  function LastArmed(pol: Policy, es: seq<Event>): int
    requires ValidRun(pol, es)
  {
    if es == [] then 0
    else match Last(es)
      case Fail(p, now, _) =>
        if Effective(pol, At(pol, Front(es)).b, p) then now else LastArmed(pol, Front(es))
      case _ => LastArmed(pol, Front(es))
  }

  // ---------- outage probe spacing ----------

  /** The shortest delay of a step: n - n/5, where n is its nominal delay. */
  function Floor(pol: Policy, step: nat): int {
    Min(NominalAt(pol, step) - NominalAt(pol, step) / 5, pol.maximum)
  }

  function SumFloors(pol: Policy, k: nat): int {
    if k == 0 then 0 else SumFloors(pol, k - 1) + Floor(pol, k)
  }

  lemma DelayBounds(pol: Policy, step: nat, draw: int)
    requires ValidPolicy(pol) && LegalDraw(NominalAt(pol, step), draw)
    ensures 0 < Floor(pol, step) <= Delay(pol, step, draw) <= pol.maximum
    ensures Delay(pol, step, draw) <= NominalAt(pol, step) + NominalAt(pol, step) / 5
  {
    NominalPositive(pol.initial, pol.maximum, step);
  }

  ghost predicate Spaced(pol: Policy, t0: int, grants: seq<int>) {
    forall k :: 0 <= k < |grants| ==> grants[k] >= t0 + SumFloors(pol, k + 1)
  }

  /** While the breaker is open, the backoff step counts the probes granted since it
      opened (plus the one now being waited for), and the pending wait, or the clock once
      the probe is out, is past the sum of all shortest delays so far. */
  ghost predicate OutageInvariant(pol: Policy, w: World, grants: seq<int>, t0: int) {
    if w.b.step == 0 then grants == [] && !w.b.probing
    else
      && w.b.step == |grants| + (if w.b.probing then 0 else 1)
      && (if w.b.probing then w.clock else w.b.retryAt) >= t0 + SumFloors(pol, w.b.step)
      && Spaced(pol, t0, grants)
  }

  lemma OutageFail(pol: Policy, w: World, e: Event, grants: seq<int>, t0: int, t1: int)
    requires ValidPolicy(pol) && e.Fail? && ValidEvent(pol, w, e)
    requires OutageInvariant(pol, w, grants, t0)
    requires t1 == if w.b.step == 0 && Effective(pol, w.b, e.p) then e.now else t0
    ensures OutageInvariant(pol, Step(pol, w, e), grants, t1)
  {
    if Effective(pol, w.b, e.p) {
      DelayBounds(pol, w.b.step + 1, e.draw);
      assert SumFloors(pol, w.b.step + 1) == SumFloors(pol, w.b.step) + Floor(pol, w.b.step + 1);
    }
  }

  lemma OutageAcquire(pol: Policy, w: World, now: int, grants: seq<int>, t0: int)
    requires now >= w.clock && OutageInvariant(pol, w, grants, t0)
    ensures var grants' := if AfterAcquire(w.b, now).1 == Granted(PROBE) then grants + [now] else grants;
            OutageInvariant(pol, Step(pol, w, Acquire(now)), grants', t0)
  {
  }

  lemma {:induction false} OutageHolds(pol: Policy, es: seq<Event>)
    requires ValidPolicy(pol) && ValidRun(pol, es)
    ensures OutageInvariant(pol, At(pol, es), ProbeGrants(pol, es), OpenedAt(pol, es))
    decreases |es|
  {
    if es == [] {
    } else {
      var front, e := Front(es), Last(es);
      OutageHolds(pol, front);
      OpeningByHistory(pol, front);
      var w, grants, t0 := At(pol, front), ProbeGrants(pol, front), OpenedAt(pol, front);
      match e
      case Acquire(now) => OutageAcquire(pol, w, now, grants, t0);
      case Fail(_, _, _) => OutageFail(pol, w, e, grants, t0, OpenedAt(pol, es));
      case _ =>
    }
  }

  /** Outage probe spacing: as long as no success is reported, the k-th probe after the
      breaker opened at t0 is granted no earlier than t0 plus the sum of the k shortest
      delays - even when probes left over from earlier outages settle in between. */
  lemma OutageProbeSpacing(pol: Policy, es: seq<Event>, k: nat)
    requires ValidPolicy(pol) && ValidRun(pol, es)
    requires k < |ProbeGrants(pol, es)|
    ensures At(pol, es).b.step > 0
    ensures ProbeGrants(pol, es)[k] >= OpenedAt(pol, es) + SumFloors(pol, k + 1)
  {
    OutageHolds(pol, es);
  }

  /** The backoff step is the number of probes granted in this outage, plus one while the
      breaker waits to grant the next. */
  lemma StepCountsProbes(pol: Policy, es: seq<Event>)
    requires ValidPolicy(pol) && ValidRun(pol, es)
    ensures var b := At(pol, es).b;
            b.step > 0 ==> b.step == |ProbeGrants(pol, es)| + (if b.probing then 0 else 1)
  {
    OutageHolds(pol, es);
  }

  /** The wait of a breaker whose timer was last armed at `armed`: within a fifth of the nominal
      delay of the step it was armed for, and cut off at the maximum. While a probe is out the
      step is still that one. */
  predicate Waits(pol: Policy, b: Breaker, armed: int) {
    if b.step == 0 then b.retryAt == 0
    else
      && 0 <= armed < b.retryAt <= armed + pol.maximum
      && InEnvelope(NominalAt(pol, b.step), pol.maximum, b.retryAt - armed)
  }

  lemma DelayInEnvelope(pol: Policy, step: nat, draw: int)
    requires ValidPolicy(pol) && LegalDraw(NominalAt(pol, step), draw)
    ensures 0 < Delay(pol, step, draw) <= pol.maximum
    ensures InEnvelope(NominalAt(pol, step), pol.maximum, Delay(pol, step, draw))
  {
    DelayBounds(pol, step, draw);
    NominalPositive(pol.initial, pol.maximum, step);
    JitterEnvelope(NominalAt(pol, step), pol.maximum, Delay(pol, step, draw));
  }

  lemma WaitStep(pol: Policy, w: World, e: Event, armed: int)
    requires ValidPolicy(pol) && ValidEvent(pol, w, e)
    requires 0 <= w.clock && Waits(pol, w.b, armed)
    ensures 0 <= Step(pol, w, e).clock
    ensures Waits(pol, Step(pol, w, e).b, if e.Fail? && Effective(pol, w.b, e.p) then e.now else armed)
  {
    if e.Fail? && Effective(pol, w.b, e.p) {
      DelayInEnvelope(pol, w.b.step + 1, e.draw);
      assert Step(pol, w, e).b.retryAt == e.now + Delay(pol, w.b.step + 1, e.draw);
    }
  }

  /** The wait is bounded: retryAt lies after the failure that armed it by the nominal delay of
      the step, give or take a fifth, and by no more than `maximum`; it is the zero time
      exactly while the breaker is closed. */
  lemma {:induction false} RetryBounded(pol: Policy, es: seq<Event>)
    requires ValidPolicy(pol) && ValidRun(pol, es)
    ensures Waits(pol, At(pol, es).b, LastArmed(pol, es))
    ensures 0 <= At(pol, es).clock
    decreases |es|
  {
    if es == [] {
    } else {
      RetryBounded(pol, Front(es));
      WaitStep(pol, At(pol, Front(es)), Last(es), LastArmed(pol, Front(es)));
    }
  }

  // ---------- recovery ----------

  /** The breaker waits for a probe that nobody holds any more. */
  predicate Orphaned(w: World) {
    w.b.probing && PROBE !in w.outstanding
  }

  /** Orphaned with nothing in flight that could still report a success. */
  predicate Wedged(w: World) {
    w.b.step > 0 && w.b.probing && w.outstanding == multiset{}
  }

  /** The abandonment of the only probe in flight while the breaker waits for it. */
  predicate DropsLastProbe(w: World, e: Event) {
    e == Abandon(PROBE) && w.b.probing && w.outstanding[PROBE] == 1
  }

  /** Exactly one kind of step orphans the breaker, and only a success repairs it. */
  lemma OrphanSteps(pol: Policy, w: World, e: Event)
    requires ValidEvent(pol, w, e) && (w.b.probing ==> w.b.step > 0)
    ensures !Orphaned(w) ==> (Orphaned(Step(pol, w, e)) <==> DropsLastProbe(w, e))
    ensures Orphaned(w) ==> (!Orphaned(Step(pol, w, e)) <==> e.Succeed?)
  {
    if e.Fail? && e.p == PROBE && w.b.probing {
      assert !Step(pol, w, e).b.probing;
    }
  }

  /** Some request dropped the last probe in flight, and no success was reported since. */
  predicate DroppedSinceSuccess(pol: Policy, es: seq<Event>)
    requires ValidRun(pol, es)
  {
    && es != []
    && !Last(es).Succeed?
    && (DropsLastProbe(At(pol, Front(es)), Last(es)) || DroppedSinceSuccess(pol, Front(es)))
  }

  /** Exact condition over whole runs: the breaker is orphaned if and only if some request
      dropped the last probe in flight and no success was reported since. */
  lemma {:induction false} OrphanedExactly(pol: Policy, es: seq<Event>)
    requires ValidPolicy(pol) && ValidRun(pol, es)
    ensures Orphaned(At(pol, es)) <==> DroppedSinceSuccess(pol, es)
    decreases |es|
  {
    if es == [] {
    } else {
      OrphanedExactly(pol, Front(es));
      OpeningByHistory(pol, Front(es));
      OrphanSteps(pol, At(pol, Front(es)), Last(es));
    }
  }

  lemma {:induction false} NeverDropped(pol: Policy, es: seq<Event>)
    requires ValidRun(pol, es) && Abandon(PROBE) !in es
    ensures !DroppedSinceSuccess(pol, es)
    decreases |es|
  {
    if es == [] {
    } else {
      NeverDropped(pol, Front(es));
    }
  }

  /** Recovery, exact condition: once nothing is in flight, a breaker admits requests from
      retryAt on if and only if no request has dropped the last probe since the last
      success. */
  lemma RecoveryExactly(pol: Policy, es: seq<Event>, now: int)
    requires ValidPolicy(pol) && ValidRun(pol, es)
    requires At(pol, es).outstanding == multiset{} && now >= At(pol, es).b.retryAt
    ensures Admits(At(pol, es).b, now) <==> !DroppedSinceSuccess(pol, es)
  {
    OrphanedExactly(pol, es);
    OpeningByHistory(pol, es);
  }

  /** On every run in which no probe is abandoned, `probing` is backed by a probe in
      flight, and with nothing in flight every request from retryAt on is admitted. */
  lemma Recovers(pol: Policy, es: seq<Event>, now: int)
    requires ValidPolicy(pol) && ValidRun(pol, es)
    requires Abandon(PROBE) !in es
    requires now >= At(pol, es).b.retryAt
    ensures At(pol, es).b.probing ==> PROBE in At(pol, es).outstanding
    ensures At(pol, es).outstanding == multiset{} ==> Admits(At(pol, es).b, now)
  {
    OrphanedExactly(pol, es);
    NeverDropped(pol, es);
  }

  /** Some continuation reaches a moment at which a request is admitted. */
  ghost predicate Recoverable(pol: Policy, w: World) {
    exists es: seq<Event>, now: int ::
      ValidFrom(pol, w, es) && now >= Replay(pol, w, es).clock && Admits(Replay(pol, w, es).b, now)
  }

  /** Once wedged, a breaker stays wedged: no event changes anything but the clock, and
      every request is refused. */
  lemma {:induction false} WedgedForever(pol: Policy, w: World, es: seq<Event>, now: int)
    requires Wedged(w) && ValidFrom(pol, w, es)
    ensures Wedged(Replay(pol, w, es)) && Replay(pol, w, es).b == w.b
    ensures !Admits(Replay(pol, w, es).b, now)
    decreases |es|
  {
    if es == [] {
    } else {
      WedgedForever(pol, w, Front(es), now);
    }
  }

  /** The dichotomy: a breaker can still come back if and only if it is not wedged. */
  lemma RecoverableIffNotWedged(pol: Policy, w: World)
    requires ValidPolicy(pol)
    ensures Recoverable(pol, w) <==> !Wedged(w)
  {
    if Wedged(w) {
      forall es: seq<Event>, now: int | ValidFrom(pol, w, es)
        ensures !Admits(Replay(pol, w, es).b, now)
      {
        WedgedForever(pol, w, es, now);
      }
    } else if w.b.step > 0 && w.b.probing {
      var p :| p in w.outstanding;
      Extend(pol, w, [], Succeed(p));
      assert [] + [Succeed(p)] == [Succeed(p)];
      assert Admits(Replay(pol, w, [Succeed(p)]).b, w.clock);
    } else {
      var now := if w.clock >= w.b.retryAt then w.clock else w.b.retryAt;
      assert Replay(pol, w, []) == w;
      assert Admits(Replay(pol, w, []).b, now);
    }
  }

  /** The cancellation return is enough to wedge an idle open breaker: take the probe, drop
      it, and no continuation ever admits a request again. */
  lemma DroppedProbeWedges(pol: Policy, w: World, now: int)
    requires ValidPolicy(pol) && pol.mayAbandon
    requires w.b.step > 0 && w.outstanding == multiset{} && now >= w.clock && Admits(w.b, now)
    ensures var probed := Step(pol, w, Acquire(now));
            ValidEvent(pol, probed, Abandon(PROBE)) && !Recoverable(pol, Step(pol, probed, Abandon(PROBE)))
  {
    RecoverableIffNotWedged(pol, Step(pol, Step(pol, w, Acquire(now)), Abandon(PROBE)));
  }

  // ---------- which outages and probes are reachable ----------

  predicate ClosedIdle(pol: Policy, b: Breaker) {
    b.step == 0 && b.failures < pol.threshold && !b.probing
  }

  lemma FailsOnce(pol: Policy, es: seq<Event>) returns (longer: seq<Event>)
    requires ValidPolicy(pol) && ValidRun(pol, es) && ClosedIdle(pol, At(pol, es).b)
    ensures ValidRun(pol, longer)
    ensures var w, w' := At(pol, es), At(pol, longer);
            && w'.outstanding == w.outstanding && w'.b.failures == w.b.failures + 1
            && !w'.b.probing && (w'.b.step == if w'.b.failures < pol.threshold then 0 else 1)
  {
    var w := At(pol, es);
    var acquire, fail := Acquire(w.clock), Fail(PLAIN, w.clock, 0);
    NominalPositive(pol.initial, pol.maximum, 1);
    Extend(pol, INIT, es, acquire);
    var w1 := At(pol, es + [acquire]);
    Extend(pol, INIT, es + [acquire], fail);
    longer := es + [acquire] + [fail];
    assert At(pol, longer).outstanding == w.outstanding;
  }

  /** After any run that leaves the breaker closed, requests that fail one after the other
      open it, and leave everything else in flight untouched. */
  lemma OpensUp(pol: Policy, es: seq<Event>) returns (longer: seq<Event>)
    requires ValidPolicy(pol) && ValidRun(pol, es) && ClosedIdle(pol, At(pol, es).b)
    ensures ValidRun(pol, longer)
    ensures var w' := At(pol, longer);
            w'.b.step == 1 && !w'.b.probing && w'.outstanding == At(pol, es).outstanding
    decreases pol.threshold - At(pol, es).b.failures
  {
    longer := FailsOnce(pol, es);
    if At(pol, longer).b.step == 0 {
      longer := OpensUp(pol, longer);
    }
  }

  /** Open the breaker, wait, take the probe. */
  lemma GrantsProbe(pol: Policy, es: seq<Event>) returns (longer: seq<Event>)
    requires ValidPolicy(pol) && ValidRun(pol, es) && ClosedIdle(pol, At(pol, es).b)
    ensures ValidRun(pol, longer)
    ensures var w' := At(pol, longer);
            w'.b.step == 1 && w'.b.probing && w'.outstanding == At(pol, es).outstanding + multiset{PROBE}
  {
    var waiting := OpensUp(pol, es);
    var w := At(pol, waiting);
    var now := if w.clock >= w.b.retryAt then w.clock else w.b.retryAt;
    Extend(pol, INIT, waiting, Acquire(now));
    longer := waiting + [Acquire(now)];
  }

  /** Every breaker that may abandon a permit can be wedged. */
  lemma WedgeReachable(pol: Policy)
    requires ValidPolicy(pol) && pol.mayAbandon
    ensures exists es :: ValidRun(pol, es) && Wedged(At(pol, es))
  {
    var es := GrantsProbe(pol, []);
    Extend(pol, INIT, es, Abandon(PROBE));
    assert Wedged(At(pol, es + [Abandon(PROBE)]));
  }

  /** "At most one probe in flight" is not an invariant: after a request left over from
      before the outage succeeds, the next outage hands out a second probe. */
  lemma TwoProbesReachable(pol: Policy)
    requires ValidPolicy(pol)
    ensures exists es :: ValidRun(pol, es) && At(pol, es).outstanding[PROBE] == 2
  {
    Extend(pol, INIT, [], Acquire(0));
    var first := GrantsProbe(pol, [] + [Acquire(0)]);
    Extend(pol, INIT, first, Succeed(PLAIN));
    var second := GrantsProbe(pol, first + [Succeed(PLAIN)]);
    assert At(pol, second).outstanding[PROBE] == 2;
  }

  predicate AtMostOneProbe(pol: Policy, es: seq<Event>)
    requires ValidRun(pol, es)
  {
    At(pol, es).outstanding[PROBE] <= 1 && (es == [] || AtMostOneProbe(pol, Front(es)))
  }

  /** Stray probes: those a success left in flight, less the probes that have failed or been
      abandoned since. */
  function Strays(pol: Policy, es: seq<Event>): nat
    requires ValidRun(pol, es)
  {
    if es == [] then 0
    else
      var before := Strays(pol, Front(es));
      var settled := if before > 0 then before - 1 else 0;
      match Last(es)
      case Acquire(_) => before
      case Succeed(_) => At(pol, es).outstanding[PROBE]
      case Fail(p, _, _) => if p.probe then settled else before
      case Abandon(p) => if p.probe then settled else before
  }

  /** No probe was granted while a stray one was still in flight. */
  predicate NoGrantOverStray(pol: Policy, es: seq<Event>)
    requires ValidRun(pol, es)
  {
    es == []
    || (&& NoGrantOverStray(pol, Front(es))
        && (Last(es).Acquire? && AfterAcquire(At(pol, Front(es)).b, Last(es).now).1 == Granted(PROBE) ==>
              Strays(pol, Front(es)) == 0))
  }

  /** One step of the bookkeeping: strays are in flight, and as long as there is at most one
      probe and the breaker waits for none, every probe in flight is a stray. */
  predicate StrayBooks(w: World, strays: nat) {
    && strays <= w.outstanding[PROBE]
    && (!w.b.probing && w.outstanding[PROBE] <= 1 ==> strays == w.outstanding[PROBE])
  }

  lemma StrayStep(pol: Policy, w: World, e: Event, strays: nat, strays': nat)
    requires ValidEvent(pol, w, e) && StrayBooks(w, strays) && (w.b.probing ==> w.b.step > 0)
    requires w.outstanding[PROBE] <= 1
    requires match e
             case Acquire(_) => strays' == strays
             case Succeed(_) => strays' == Step(pol, w, e).outstanding[PROBE]
             case Fail(p, _, _) => strays' == if p.probe && strays > 0 then strays - 1 else strays
             case Abandon(p) => strays' == if p.probe && strays > 0 then strays - 1 else strays
    ensures StrayBooks(Step(pol, w, e), strays')
    ensures Step(pol, w, e).outstanding[PROBE] <= 1
            <==> (e.Acquire? && AfterAcquire(w.b, e.now).1 == Granted(PROBE) ==> strays == 0)
  {
  }

  /** "At most one probe in flight", exact condition: it holds throughout a run if and only if
      no probe is granted while a probe that an earlier success left behind is unsettled. */
  lemma {:induction false} AtMostOneProbeExactly(pol: Policy, es: seq<Event>)
    requires ValidPolicy(pol) && ValidRun(pol, es)
    ensures AtMostOneProbe(pol, es) <==> NoGrantOverStray(pol, es)
    ensures AtMostOneProbe(pol, es) ==> StrayBooks(At(pol, es), Strays(pol, es))
    decreases |es|
  {
    if es == [] {
    } else {
      AtMostOneProbeExactly(pol, Front(es));
      OpeningByHistory(pol, Front(es));
      if AtMostOneProbe(pol, Front(es)) {
        StrayStep(pol, At(pol, Front(es)), Last(es), Strays(pol, Front(es)), Strays(pol, es));
      }
    }
  }

  /** No probe in flight other than the one the breaker waits for. */
  predicate ExclusiveProbe(w: World) {
    w.outstanding[PROBE] <= if w.b.probing then 1 else 0
  }

  predicate AlwaysExclusive(pol: Policy, es: seq<Event>)
    requires ValidRun(pol, es)
  {
    ExclusiveProbe(At(pol, es)) && (es == [] || AlwaysExclusive(pol, Front(es)))
  }

  /** No success was reported while another request still held a probe. */
  predicate StrayFree(pol: Policy, es: seq<Event>)
    requires ValidRun(pol, es)
  {
    es == []
    || (StrayFree(pol, Front(es)) && (Last(es).Succeed? ==> PROBE !in At(pol, es).outstanding))
  }

  lemma ExclusiveStep(pol: Policy, w: World, e: Event)
    requires ValidEvent(pol, w, e) && ExclusiveProbe(w) && (w.b.probing ==> w.b.step > 0)
    ensures ExclusiveProbe(Step(pol, w, e))
            <==> (e.Succeed? ==> PROBE !in Step(pol, w, e).outstanding)
  {
  }

  /** The stronger form, in which moreover no stray probe is ever in flight, holds throughout a
      run if and only if no success is reported while another request holds a probe. */
  lemma {:induction false} ProbeExclusiveExactly(pol: Policy, es: seq<Event>)
    requires ValidPolicy(pol) && ValidRun(pol, es)
    ensures AlwaysExclusive(pol, es) <==> StrayFree(pol, es)
    decreases |es|
  {
    if es == [] {
    } else {
      ProbeExclusiveExactly(pol, Front(es));
      OpeningByHistory(pol, Front(es));
      if AlwaysExclusive(pol, Front(es)) {
        ExclusiveStep(pol, At(pol, Front(es)), Last(es));
      }
    }
  }
}
