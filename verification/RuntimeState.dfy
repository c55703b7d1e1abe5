/** The supervisor's table of components and DoH provider counters. Counters are uint64. */
module RuntimeState {
  import opened Backoff
  import opened Doh
  import opened Sequences

  datatype Component = Component(enabled: bool, up: bool, restarts: nat, backoff: int)

  datatype DoHUpstream = DoHUpstream(
    requests: nat,
    successes: nat,
    failures: nat,
    backoffSkips: nat,
    durationMicroseconds: nat,
    retryAtUnixMilli: int,
    lastSuccessUnix: int,
    lastFailureUnix: int)

  const NO_COMPONENT := Component(false, false, 0, 0)
  const ZERO := DoHUpstream(0, 0, 0, 0, 0, 0, 0, 0)

  const COMPONENTS := ["doh_bridge", "mosdns", "unbound", "unbound_recursive"]

  datatype Snapshot = Snapshot(
    timestamp: int,
    components: map<string, Component>,
    dohUpstreams: map<string, DoHUpstream>)

  datatype Observation = Observation(result: Result, duration: int, retryAtMilli: int, now: int)

  function Inc(x: nat): nat {
    (x + 1) % TWO_64
  }

  /** A retry time of 0 stands for the zero time. */
  function Observed(u: DoHUpstream, o: Observation): DoHUpstream {
    DoHUpstream(
      Inc(u.requests),
      if o.result == Success then Inc(u.successes) else u.successes,
      if o.result == Failure then Inc(u.failures) else u.failures,
      if o.result == Skip then Inc(u.backoffSkips) else u.backoffSkips,
      if o.duration > 0 then (u.durationMicroseconds + o.duration / 1000) % TWO_64 else u.durationMicroseconds,
      o.retryAtMilli,
      if o.result == Success then o.now else u.lastSuccessUnix,
      if o.result == Failure then o.now else u.lastFailureUnix)
  }

  /** The counters add up, modulo 2^64. */
  predicate AddsUp(u: DoHUpstream) {
    (u.successes + u.failures + u.backoffSkips - u.requests) % TWO_64 == 0
  }

  lemma Congruent(a: int, b: int, k: int)
    requires a % TWO_64 == 0 && b == a + TWO_64 * k
    ensures b % TWO_64 == 0
  {
  }

  lemma ObservedAddsUp(u: DoHUpstream, o: Observation)
    requires AddsUp(u)
    ensures AddsUp(Observed(u, o))
  {
    var q := (u.requests + 1) / TWO_64;
    var counted := match o.result case Success => u.successes case Failure => u.failures case Skip => u.backoffSkips;
    var q' := (counted + 1) / TWO_64;
    var v := Observed(u, o);
    assert Inc(u.requests) == u.requests + 1 - TWO_64 * q;
    assert Inc(counted) == counted + 1 - TWO_64 * q';
    Congruent(u.successes + u.failures + u.backoffSkips - u.requests,
              v.successes + v.failures + v.backoffSkips - v.requests, q - q');
  }

  class Table {
    var components: map<string, Component>
    var dohUpstreams: map<string, DoHUpstream>

    ghost predicate Valid()
      reads this
    {
      forall name :: name in dohUpstreams ==> AddsUp(dohUpstreams[name])
    }

    constructor ()
      ensures Valid() && dohUpstreams == map[]
      ensures components.Keys == {"doh_bridge", "mosdns", "unbound", "unbound_recursive"}
      ensures forall name :: name in components ==> components[name] == Component(true, false, 0, 0)
    {
      components := map name | name in COMPONENTS :: NO_COMPONENT.(enabled := true);
      dohUpstreams := map[];
    }

    /** Reads, changes and writes back one component and no other. */
    method Update(name: string, change: Component -> Component)
      requires Valid()
      modifies this
      ensures Valid() && dohUpstreams == old(dohUpstreams)
      ensures components == old(components)[
                name := change(if name in old(components) then old(components)[name] else NO_COMPONENT)]
    {
      var component := if name in components then components[name] else NO_COMPONENT;
      components := components[name := change(component)];
    }

    method Register(name: string)
      requires Valid()
      modifies this
      ensures Valid() && components == old(components)
      ensures dohUpstreams == if name in old(dohUpstreams) then old(dohUpstreams)
                              else old(dohUpstreams)[name := ZERO]
    {
      if name !in dohUpstreams {
        dohUpstreams := dohUpstreams[name := ZERO];
      }
    }

    /** Reads, updates and writes back one provider's record and no other. */
    method Observe(name: string, o: Observation)
      requires Valid()
      modifies this
      ensures Valid() && components == old(components)
      ensures dohUpstreams == old(dohUpstreams)[
                name := Observed(if name in old(dohUpstreams) then old(dohUpstreams)[name] else ZERO, o)]
    {
      var u := if name in dohUpstreams then dohUpstreams[name] else ZERO;
      ObservedAddsUp(u, o);
      u := u.(requests := Inc(u.requests));
      if o.duration > 0 {
        u := u.(durationMicroseconds := (u.durationMicroseconds + o.duration / 1000) % TWO_64);
      }
      match o.result {
      case Success =>
        u := u.(successes := Inc(u.successes), lastSuccessUnix := o.now);
      case Failure =>
        u := u.(failures := Inc(u.failures), lastFailureUnix := o.now);
      case Skip =>
        u := u.(backoffSkips := Inc(u.backoffSkips));
      }
      u := u.(retryAtUnixMilli := o.retryAtMilli);
      dohUpstreams := dohUpstreams[name := u];
    }

    /** Copies both tables entry by entry. */
    method TakeSnapshot(now: int) returns (copied: Snapshot)
      ensures copied == Snapshot(now, components, dohUpstreams)
    {
      var copiedComponents := CopyOf(components);
      var copiedUpstreams := CopyOf(dohUpstreams);
      return Snapshot(now, copiedComponents, copiedUpstreams);
    }
  }

  method CopyOf<V>(table: map<string, V>) returns (copied: map<string, V>)
    ensures copied == table
  {
    copied := map[];
    var left := table.Keys;
    while left != {}
      invariant left <= table.Keys
      invariant copied.Keys == table.Keys - left
      invariant forall name :: name in copied ==> copied[name] == table[name]
      decreases |left|
    {
      var name :| name in left;
      copied := copied[name := table[name]];
      left := left - {name};
    }
  }

  // ---------- whole histories of reports ----------

  function Count(os: seq<Observation>, result: Result): nat {
    if os == [] then 0 else Count(Front(os), result) + if Last(os).result == result then 1 else 0
  }

  function ObservedAll(os: seq<Observation>): DoHUpstream {
    if os == [] then ZERO else Observed(ObservedAll(Front(os)), Last(os))
  }

  lemma IncOfReduced(n: nat)
    ensures Inc(n % TWO_64) == (n + 1) % TWO_64
  {
    var q, r := n / TWO_64, n % TWO_64;
    assert n == TWO_64 * q + r;
    if r + 1 == TWO_64 {
      assert n + 1 == TWO_64 * (q + 1);
    } else {
      assert n + 1 == TWO_64 * q + (r + 1);
    }
  }

  /** The time of the last report of this kind, or 0. */
  function LastTime(os: seq<Observation>, result: Result): int {
    if os == [] then 0
    else if Last(os).result == result then Last(os).now
    else LastTime(Front(os), result)
  }

  /** The whole microseconds of all durations that were positive. */
  function Microseconds(os: seq<Observation>): nat {
    if os == [] then 0
    else Microseconds(Front(os)) + if Last(os).duration > 0 then Last(os).duration / 1000 else 0
  }

  lemma ReducedSum(n: nat, more: nat)
    ensures (n % TWO_64 + more) % TWO_64 == (n + more) % TWO_64
  {
    var q, r := n / TWO_64, n % TWO_64;
    var q', r' := (r + more) / TWO_64, (r + more) % TWO_64;
    assert n + more == TWO_64 * (q + q') + r';
    UniqueRemainder(n + more, q + q', r');
  }

  lemma UniqueRemainder(n: nat, q: nat, r: nat)
    requires n == TWO_64 * q + r && r < TWO_64
    ensures n % TWO_64 == r
  {
  }

  /** After any sequence of reports a provider's record shows the times of the last success and
      the last failure, the retry time of the last report, and the time spent, modulo 2^64. */
  lemma {:induction false} RecordTimes(os: seq<Observation>)
    ensures var u := ObservedAll(os);
            && u.lastSuccessUnix == LastTime(os, Success)
            && u.lastFailureUnix == LastTime(os, Failure)
            && u.retryAtUnixMilli == (if os == [] then 0 else Last(os).retryAtMilli)
            && u.durationMicroseconds == Microseconds(os) % TWO_64
    decreases |os|
  {
    if os == [] {
    } else {
      RecordTimes(Front(os));
      if Last(os).duration > 0 {
        ReducedSum(Microseconds(Front(os)), Last(os).duration / 1000);
      }
    }
  }

  /** After any sequence of reports a provider's record counts each kind of result, and the
      request counter counts them all, modulo 2^64. */
  lemma {:induction false} RecordCounts(os: seq<Observation>)
    ensures var u := ObservedAll(os);
            && u.requests == |os| % TWO_64
            && u.successes == Count(os, Success) % TWO_64
            && u.failures == Count(os, Failure) % TWO_64
            && u.backoffSkips == Count(os, Skip) % TWO_64
    ensures Count(os, Success) + Count(os, Failure) + Count(os, Skip) == |os|
  {
    if os == [] {
    } else {
      RecordCounts(Front(os));
      IncOfReduced(|Front(os)|);
      IncOfReduced(Count(Front(os), Last(os).result));
    }
  }
}
