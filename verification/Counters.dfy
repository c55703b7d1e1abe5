/** What the DoH exchanges report: the request counters, and the retry time exported with them.
 *
 * An exchange settles its permit in one locked section, reads the retry time in a second and
 * publishes result and retry time in a third, so other exchanges may run between any two.
 */
module Counters {
  import opened Backoff
  import opened Breaker
  import opened Sequences
  import opened Options
  import opened Doh

  datatype Ledger = Ledger(requests: nat, successes: nat, failures: nat, skips: nat, retryAt: int)

  /** The retry times read by exchanges that have not published yet, by result. */
  datatype Pending = Pending(success: multiset<int>, failure: multiset<int>, skip: multiset<int>)

  /** `unread` holds the results of exchanges settled but yet to read the retry time. */
  datatype Provider = Provider(w: World, started: nat, unread: multiset<Result>, pending: Pending, ledger: Ledger)

  const NOTHING := Pending(multiset{}, multiset{}, multiset{})
  const FRESH := Provider(INIT, 0, multiset{}, NOTHING, Ledger(0, 0, 0, 0, 0))

  datatype Move =
    | Do(e: Event)                           // an acquire or a settlement
    | Read(result: Result)                   // first half of record
    | Publish(result: Result, retryAt: int)  // second half of record

  function Of(p: Pending, result: Result): multiset<int> {
    match result
    case Success => p.success
    case Failure => p.failure
    case Skip => p.skip
  }

  function With(p: Pending, result: Result, times: multiset<int>): Pending {
    match result
    case Success => p.(success := times)
    case Failure => p.(failure := times)
    case Skip => p.(skip := times)
  }

  predicate ValidMove(s: Provider, m: Move) {
    match m
    case Do(e) => ValidEvent(DOH, s.w, e)
    case Read(result) => result in s.unread
    case Publish(result, retryAt) => retryAt in Of(s.pending, result)
  }

  function Published(l: Ledger, result: Result, retryAt: int): Ledger {
    var l1 := l.(requests := l.requests + 1, retryAt := retryAt);
    match result
    case Success => l1.(successes := l.successes + 1)
    case Failure => l1.(failures := l.failures + 1)
    case Skip => l1.(skips := l.skips + 1)
  }

  /** The result an event leaves to be recorded, if any. */
  function ResultOf(b: Breaker, e: Event): Option<Result> {
    match e
    case Acquire(now) => if Admits(b, now) then None else Some(Skip)
    case Succeed(_) => Some(Success)
    case Fail(_, _, _) => Some(Failure)
    case Abandon(_) => None
  }

  function Apply(s: Provider, m: Move): Provider
    requires ValidMove(s, m)
  {
    match m
    case Do(e) =>
      var result := ResultOf(s.w.b, e);
      s.(w := Step(DOH, s.w, e),
         started := if e.Acquire? then s.started + 1 else s.started,
         unread := if result.Some? then s.unread + multiset{result.value} else s.unread)
    case Read(result) =>
      s.(unread := s.unread - multiset{result},
         pending := With(s.pending, result, Of(s.pending, result) + multiset{s.w.b.retryAt}))
    case Publish(result, retryAt) =>
      s.(pending := With(s.pending, result, Of(s.pending, result) - multiset{retryAt}),
         ledger := Published(s.ledger, result, retryAt))
  }

  predicate ValidFrom(s: Provider, ms: seq<Move>)
    decreases |ms|, 0
  {
    ms == [] || (ValidFrom(s, Front(ms)) && ValidMove(After(s, Front(ms)), Last(ms)))
  }

  function After(s: Provider, ms: seq<Move>): Provider
    requires ValidFrom(s, ms)
    decreases |ms|, 1
  {
    if ms == [] then s else Apply(After(s, Front(ms)), Last(ms))
  }

  lemma Then(s: Provider, ms: seq<Move>, m: Move)
    requires ValidFrom(s, ms) && ValidMove(After(s, ms), m)
    ensures ValidFrom(s, ms + [m]) && After(s, ms + [m]) == Apply(After(s, ms), m)
  {
    assert Front(ms + [m]) == ms;
  }

  // ---------- counter conservation ----------

  /** The event is an exchange that ended this way: a settlement, or a refusal while the breaker is
      open and the wait is not over or a probe is out. */
  predicate Ends(b: Breaker, e: Event, result: Result) {
    match result
    case Success => e.Succeed?
    case Failure => e.Fail?
    case Skip => e.Acquire? && b.step > 0 && (e.now < b.retryAt || b.probing)
  }

  lemma EndsExactly(b: Breaker, e: Event, result: Result)
    ensures ResultOf(b, e) == Some(result) <==> Ends(b, e, result)
  {
  }

  /** How many moves of a run ended an exchange this way. */
  function Produced(s: Provider, ms: seq<Move>, result: Result): nat
    requires ValidFrom(s, ms)
  {
    if ms == [] then 0
    else
      Produced(s, Front(ms), result)
      + if Last(ms).Do? && Ends(After(s, Front(ms)).w.b, Last(ms).e, result) then 1 else 0
  }

  function Tally(l: Ledger, result: Result): nat {
    match result
    case Success => l.successes
    case Failure => l.failures
    case Skip => l.skips
  }

  /** How many exchanges of this result are counted, or settled and yet to be counted. */
  function Ended(s: Provider, result: Result): nat {
    Tally(s.ledger, result) + |Of(s.pending, result)| + s.unread[result]
  }

  function Unpublished(p: Pending): nat {
    |p.success| + |p.failure| + |p.skip|
  }

  lemma OfWith(p: Pending, result: Result, times: multiset<int>, other: Result)
    ensures Of(With(p, result, times), other) == if other == result then times else Of(p, other)
  {
  }

  lemma UnpublishedWith(p: Pending, result: Result, times: multiset<int>)
    ensures Unpublished(With(p, result, times)) == Unpublished(p) - |Of(p, result)| + |times|
  {
  }

  predicate Balanced(s: Provider) {
    && s.ledger.requests == s.ledger.successes + s.ledger.failures + s.ledger.skips
    && s.started == s.ledger.requests + Unpublished(s.pending) + |s.unread| + |s.w.outstanding|
  }

  lemma BalancedDo(s: Provider, e: Event)
    requires ValidMove(s, Do(e)) && Balanced(s)
    ensures Balanced(Apply(s, Do(e)))
  {
    match e
    case Acquire(now) =>
    case Succeed(_) =>
    case Fail(_, _, _) =>
  }

  lemma BalancedRead(s: Provider, result: Result)
    requires ValidMove(s, Read(result)) && Balanced(s)
    ensures Balanced(Apply(s, Read(result)))
  {
    UnpublishedWith(s.pending, result, Of(s.pending, result) + multiset{s.w.b.retryAt});
  }

  lemma BalancedPublish(s: Provider, result: Result, t: int)
    requires ValidMove(s, Publish(result, t)) && Balanced(s)
    ensures Balanced(Apply(s, Publish(result, t)))
  {
    UnpublishedWith(s.pending, result, Of(s.pending, result) - multiset{t});
  }

  lemma BalancedStep(s: Provider, m: Move)
    requires ValidMove(s, m) && Balanced(s)
    ensures Balanced(Apply(s, m))
  {
    match m
    case Do(e) => BalancedDo(s, e);
    case Read(result) => BalancedRead(s, result);
    case Publish(result, t) => BalancedPublish(s, result, t);
  }

  lemma EndedDo(s: Provider, e: Event, result: Result)
    requires ValidMove(s, Do(e))
    ensures Ended(Apply(s, Do(e)), result)
         == Ended(s, result) + if ResultOf(s.w.b, e) == Some(result) then 1 else 0
  {
  }

  lemma EndedRead(s: Provider, read: Result, result: Result)
    requires ValidMove(s, Read(read))
    ensures Ended(Apply(s, Read(read)), result) == Ended(s, result)
  {
    OfWith(s.pending, read, Of(s.pending, read) + multiset{s.w.b.retryAt}, result);
  }

  lemma EndedPublish(s: Provider, published: Result, t: int, result: Result)
    requires ValidMove(s, Publish(published, t))
    ensures Ended(Apply(s, Publish(published, t)), result) == Ended(s, result)
  {
    OfWith(s.pending, published, Of(s.pending, published) - multiset{t}, result);
  }

  lemma EndedStep(s: Provider, m: Move, result: Result)
    requires ValidMove(s, m)
    ensures Ended(Apply(s, m), result)
         == Ended(s, result) + if m.Do? && ResultOf(s.w.b, m.e) == Some(result) then 1 else 0
  {
    match m
    case Do(e) => EndedDo(s, e, result);
    case Read(read) => EndedRead(s, read, result);
    case Publish(published, t) => EndedPublish(s, published, t, result);
  }

  lemma {:induction false} EndedExactly(ms: seq<Move>, result: Result)
    requires ValidFrom(FRESH, ms)
    ensures Ended(After(FRESH, ms), result) == Produced(FRESH, ms, result)
    decreases |ms|
  {
    if ms == [] {
    } else {
      EndedExactly(Front(ms), result);
      EndedStep(After(FRESH, Front(ms)), Last(ms), result);
      if Last(ms).Do? {
        EndsExactly(After(FRESH, Front(ms)).w.b, Last(ms).e, result);
      }
    }
  }

  /** Conservation for every interleaving: the counters add up, every exchange started is
      either counted or still in flight, and each counter plus the unrecorded results is
      the number of exchanges that really ended that way. */
  lemma {:induction false} CountersConserved(ms: seq<Move>)
    requires ValidFrom(FRESH, ms)
    ensures Balanced(After(FRESH, ms))
    ensures forall result: Result :: Ended(After(FRESH, ms), result) == Produced(FRESH, ms, result)
    decreases |ms|
  {
    if ms == [] {
    } else {
      CountersConserved(Front(ms));
      BalancedStep(After(FRESH, Front(ms)), Last(ms));
    }
    forall result: Result
      ensures Ended(After(FRESH, ms), result) == Produced(FRESH, ms, result)
    {
      EndedExactly(ms, result);
    }
  }

  // ---------- the exported retry time ----------

  /** Nothing is left to be recorded. */
  predicate AllRecorded(s: Provider) {
    s.unread == multiset{} && s.pending == NOTHING
  }

  /** Only reports, no further acquire or settlement. */
  ghost predicate Reporting(ms: seq<Move>) {
    forall i :: 0 <= i < |ms| ==> !ms[i].Do?
  }

  /** Every retry time read and not yet published is still the breaker's. */
  ghost predicate NoStaleReading(s: Provider) {
    forall result: Result, t: int :: t in Of(s.pending, result) ==> t == s.w.b.retryAt
  }

  ghost predicate WillAgree(s: Provider) {
    forall ms :: ValidFrom(s, ms) && Reporting(ms) && AllRecorded(After(s, ms)) ==>
      After(s, ms).ledger.retryAt == s.w.b.retryAt
  }

  /** Left to report after some of the reports of `s`; the last one published was a fresh one. */
  ghost predicate Reported(s: Provider, s1: Provider) {
    && s1.w == s.w && NoStaleReading(s1)
    && (|| s1.ledger.retryAt == s.w.b.retryAt
        || (s1.ledger == s.ledger && (AllRecorded(s1) ==> AllRecorded(s))))
  }

  lemma FreshRead(s: Provider, result: Result)
    requires NoStaleReading(s) && ValidMove(s, Read(result))
    ensures NoStaleReading(Apply(s, Read(result))) && !AllRecorded(Apply(s, Read(result)))
  {
    var t := s.w.b.retryAt;
    var s1 := Apply(s, Read(result));
    forall other: Result, u: int | u in Of(s1.pending, other)
      ensures u == t
    {
      OfWith(s.pending, result, Of(s.pending, result) + multiset{t}, other);
      assert u in Of(s.pending, other) || u == t;
    }
    OfWith(s.pending, result, Of(s.pending, result) + multiset{t}, result);
    assert t in Of(s1.pending, result);
    assert Of(NOTHING, result) == multiset{};
  }

  lemma FreshPublish(s: Provider, result: Result, t: int)
    requires NoStaleReading(s) && ValidMove(s, Publish(result, t))
    ensures var s1 := Apply(s, Publish(result, t));
            NoStaleReading(s1) && s1.ledger.retryAt == s.w.b.retryAt
  {
    var s1 := Apply(s, Publish(result, t));
    forall other: Result, u: int | u in Of(s1.pending, other)
      ensures u == s.w.b.retryAt
    {
      OfWith(s.pending, result, Of(s.pending, result) - multiset{t}, other);
      assert u in Of(s.pending, other);
    }
  }

  lemma ReportedStep(s: Provider, s1: Provider, m: Move)
    requires Reported(s, s1) && ValidMove(s1, m) && !m.Do?
    ensures Reported(s, Apply(s1, m))
  {
    match m
    case Read(result) => FreshRead(s1, result);
    case Publish(result, t) => FreshPublish(s1, result, t);
  }

  lemma {:induction false} FreshReports(s: Provider, ms: seq<Move>)
    requires NoStaleReading(s) && ValidFrom(s, ms) && Reporting(ms)
    ensures Reported(s, After(s, ms))
    decreases |ms|
  {
    if ms == [] {
    } else {
      assert Last(ms) == ms[|ms| - 1];
      FreshReports(s, Front(ms));
      ReportedStep(s, After(s, Front(ms)), Last(ms));
    }
  }

  function Left(s: Provider): nat {
    2 * |s.unread| + Unpublished(s.pending)
  }

  /** Retry times pending besides one reading of `t`. */
  function Others(p: Pending, result: Result, t: int): Pending {
    With(p, result, Of(p, result) - multiset{t})
  }

  lemma ReadFirst(s: Provider, other: Result, result: Result, t: int)
    requires ValidMove(s, Read(other)) && t in Of(s.pending, result)
    ensures var s1 := Apply(s, Read(other));
            t in Of(s1.pending, result) && Left(s1) < Left(s)
  {
    var times := Of(s.pending, other) + multiset{s.w.b.retryAt};
    OfWith(s.pending, other, times, result);
    UnpublishedWith(s.pending, other, times);
  }

  lemma StillAmong(p: Pending, other: Result, u: int, result: Result, t: int)
    requires t in Of(p, result) && u in Of(Others(p, result, t), other)
    ensures u in Of(p, other)
    ensures t in Of(With(p, other, Of(p, other) - multiset{u}), result)
  {
    OfWith(p, result, Of(p, result) - multiset{t}, other);
    OfWith(p, other, Of(p, other) - multiset{u}, result);
  }

  lemma PublishFirst(s: Provider, other: Result, u: int, result: Result, t: int)
    requires t in Of(s.pending, result) && u in Of(Others(s.pending, result, t), other)
    ensures ValidMove(s, Publish(other, u))
    ensures var s1 := Apply(s, Publish(other, u));
            t in Of(s1.pending, result) && Left(s1) < Left(s)
  {
    StillAmong(s.pending, other, u, result, t);
    UnpublishedWith(s.pending, other, Of(s.pending, other) - multiset{u});
  }

  lemma OnlyOne(p: Pending, result: Result, t: int)
    requires t in Of(p, result) && forall other: Result :: Of(Others(p, result, t), other) == multiset{}
    ensures p == With(NOTHING, result, multiset{t})
  {
    var q := Others(p, result, t);
    assert Of(q, Success) == Of(q, Failure) == Of(q, Skip) == multiset{};
    assert Of(p, result) - multiset{t} == multiset{};
    assert Of(p, result) == multiset{t};
  }

  lemma Inhabited(times: multiset<int>)
    requires times != multiset{}
    ensures exists u: int :: u in times
  {
    if forall u: int :: u !in times {
      assert false;
    }
  }

  /** A report that can be made before the one of `t`, if that is not the only one left. */
  lemma AnotherFirst(s: Provider, result: Result, t: int) returns (m: Move)
    requires t in Of(s.pending, result)
    requires s.unread != multiset{} || s.pending != With(NOTHING, result, multiset{t})
    ensures !m.Do? && ValidMove(s, m)
    ensures t in Of(Apply(s, m).pending, result) && Left(Apply(s, m)) < Left(s)
  {
    if other: Result :| other in s.unread {
      m := Read(other);
      ReadFirst(s, other, result, t);
    } else {
      assert s.unread == multiset{};
      if forall other: Result :: Of(Others(s.pending, result, t), other) == multiset{} {
        OnlyOne(s.pending, result, t);
        assert false;
      }
      var other: Result :| Of(Others(s.pending, result, t), other) != multiset{};
      var times := Of(Others(s.pending, result, t), other);
      Inhabited(times);
      var u: int :| u in times;
      m := Publish(other, u);
      PublishFirst(s, other, u, result, t);
    }
  }

  /** All other reports can be made before this one. */
  lemma {:induction false} LeavesOne(s: Provider, ms: seq<Move>, result: Result, t: int) returns (ms': seq<Move>)
    requires ValidFrom(s, ms) && Reporting(ms) && t in Of(After(s, ms).pending, result)
    ensures ValidFrom(s, ms') && Reporting(ms')
    ensures After(s, ms').unread == multiset{} && After(s, ms').pending == With(NOTHING, result, multiset{t})
    decreases Left(After(s, ms))
  {
    var s1 := After(s, ms);
    if s1.unread == multiset{} && s1.pending == With(NOTHING, result, multiset{t}) {
      ms' := ms;
    } else {
      var m := AnotherFirst(s1, result, t);
      Then(s, ms, m);
      ms' := LeavesOne(s, ms + [m], result, t);
    }
  }

  /** The exported retry time, exact condition: if no further exchange settles, then in whatever
      order the outstanding reports are made, the export ends up agreeing with the breaker if
      and only if no retry time already read is out of date, and, when there is nothing left
      to report, the export agrees now. */
  lemma ExportAgreesExactly(s: Provider)
    ensures WillAgree(s)
            <==> NoStaleReading(s) && (AllRecorded(s) ==> s.ledger.retryAt == s.w.b.retryAt)
  {
    if NoStaleReading(s) {
      forall ms | ValidFrom(s, ms) && Reporting(ms)
        ensures Reported(s, After(s, ms))
      {
        FreshReports(s, ms);
      }
    } else {
      var result: Result, t: int :| t in Of(s.pending, result) && t != s.w.b.retryAt;
      var ms := StaleCanBeLast(s, result, t);
    }
    assert ValidFrom(s, []) && Reporting([]) && After(s, []) == s;
  }

  lemma LastReport(s: Provider, result: Result, t: int)
    requires s.unread == multiset{} && s.pending == With(NOTHING, result, multiset{t})
    ensures ValidMove(s, Publish(result, t))
    ensures var s1 := Apply(s, Publish(result, t));
            AllRecorded(s1) && s1.ledger.retryAt == t
  {
    OfWith(NOTHING, result, multiset{t}, result);
  }

  /** The last move of a reporting run. */
  lemma ThenReport(s: Provider, ms: seq<Move>, m: Move)
    requires ValidFrom(s, ms) && Reporting(ms) && ValidMove(After(s, ms), m) && !m.Do?
    ensures ValidFrom(s, ms + [m]) && Reporting(ms + [m])
    ensures After(s, ms + [m]) == Apply(After(s, ms), m)
  {
    Then(s, ms, m);
  }

  lemma StaleCanBeLast(s: Provider, result: Result, t: int) returns (ms: seq<Move>)
    requires t in Of(s.pending, result)
    ensures ValidFrom(s, ms) && Reporting(ms)
    ensures AllRecorded(After(s, ms)) && After(s, ms).ledger.retryAt == t
  {
    var before := LeavesOne(s, [], result, t);
    LastReport(After(s, before), result, t);
    ThenReport(s, before, Publish(result, t));
    ms := before + [Publish(result, t)];
  }

  lemma StartsThree() returns (ms: seq<Move>)
    ensures ValidFrom(FRESH, ms)
    ensures After(FRESH, ms).w == World(CLOSED, 0, multiset{PLAIN, PLAIN, PLAIN})
  {
    ms := [];
    Then(FRESH, ms, Do(Acquire(0)));
    ms := ms + [Do(Acquire(0))];
    Then(FRESH, ms, Do(Acquire(0)));
    ms := ms + [Do(Acquire(0))];
    Then(FRESH, ms, Do(Acquire(0)));
    ms := ms + [Do(Acquire(0))];
  }

  lemma TwoFailuresOpen(permits: multiset<Permit>)
    requires permits[PLAIN] >= 2
    ensures var fail, w := Fail(PLAIN, 0, 0), World(CLOSED, 0, permits);
            && ValidEvent(DOH, w, fail) && ValidEvent(DOH, Step(DOH, w, fail), fail)
            && Step(DOH, Step(DOH, w, fail), fail)
               == World(Breaker(2, 1, 800 * MILLISECOND, false), 0, permits - multiset{PLAIN} - multiset{PLAIN})
  {
    assert Pow2(0) == 1;
    assert NominalAt(DOH, 1) == SECOND;
    assert Step(DOH, World(CLOSED, 0, permits), Fail(PLAIN, 0, 0)).b == Breaker(1, 0, 0, false);
  }

  lemma OpensWithOneLeft() returns (ms: seq<Move>)
    ensures ValidFrom(FRESH, ms)
    ensures After(FRESH, ms).w == World(Breaker(2, 1, 800 * MILLISECOND, false), 0, multiset{PLAIN})
    ensures Failure in After(FRESH, ms).unread
  {
    ms := StartsThree();
    TwoFailuresOpen(After(FRESH, ms).w.outstanding);
    var fail := Do(Fail(PLAIN, 0, 0));
    Then(FRESH, ms, fail);
    Then(FRESH, ms + [fail], fail);
    ms := ms + [fail] + [fail];
  }

  /** Two failures open the breaker and one of them reads the retry time; then a third exchange
      succeeds. The breaker is closed with nothing in flight, and yet the export can end up at
      the retry time of the first outage. */
  lemma StaleExportReachable() returns (ms: seq<Move>, more: seq<Move>)
    ensures ValidFrom(FRESH, ms)
    ensures var s := After(FRESH, ms);
            && s.w == World(CLOSED, 0, multiset{})
            && ValidFrom(s, more) && Reporting(more) && AllRecorded(After(s, more))
            && After(s, more).ledger.retryAt == 800 * MILLISECOND
  {
    ms := OpensWithOneLeft();
    Then(FRESH, ms, Read(Failure));
    ms := ms + [Read(Failure)];
    Then(FRESH, ms, Do(Succeed(PLAIN)));
    ms := ms + [Do(Succeed(PLAIN))];
    more := StaleCanBeLast(After(FRESH, ms), Failure, 800 * MILLISECOND);
  }
}
