/** The dial-address cache of a bootstrapped DoH provider.
 *
 * `get` takes the lock twice, around the lookup and around the store, and resolves in
 * between without it. The two halves are therefore separate events, and a resolve begun
 * before an invalidation may store after it. A resolve is identified by the position of
 * its lookup in the run.
 */
module DialCache {
  import opened Backoff
  import opened Options
  import opened Sequences

  const TTL: int := MINUTE

  datatype Cache = Cache(addresses: seq<string>, expiresAt: int)

  const EMPTY := Cache([], 0)

  function Served(c: Cache, now: int): Option<seq<string>> {
    if |c.addresses| > 0 && now < c.expiresAt then Some(c.addresses) else None
  }

  /** `events` counts the events so far; `resolving` holds the lookups still resolving. */
  datatype State = State(cache: Cache, clock: int, events: nat, resolving: set<nat>)

  const INIT := State(EMPTY, 0, 0, {})

  datatype Event =
    | Lookup(now: int)                                    // first half of get
    | Store(lookup: nat, addresses: seq<string>, now: int)  // second half, for that lookup
    | ResolveFailed(lookup: nat)
    | Invalidate

  predicate ValidEvent(s: State, e: Event) {
    match e
    case Lookup(now) => now >= s.clock
    case Store(lookup, _, now) => lookup in s.resolving && now >= s.clock
    case ResolveFailed(lookup) => lookup in s.resolving
    case Invalidate => true
  }

  function Step(s: State, e: Event): State
    requires ValidEvent(s, e)
  {
    var s1 := s.(events := s.events + 1);
    match e
    case Lookup(now) =>
      s1.(clock := now,
          resolving := if Served(s.cache, now).None? then s.resolving + {s.events} else s.resolving)
    case Store(lookup, addresses, now) =>
      s1.(cache := Cache(addresses, now + TTL), clock := now, resolving := s.resolving - {lookup})
    case ResolveFailed(lookup) => s1.(resolving := s.resolving - {lookup})
    case Invalidate => s1.(cache := EMPTY)
  }

  predicate ValidRun(es: seq<Event>)
    decreases |es|, 0
  {
    es == [] || (ValidRun(Front(es)) && ValidEvent(At(Front(es)), Last(es)))
  }

  function At(es: seq<Event>): State
    requires ValidRun(es)
    decreases |es|, 1
  {
    if es == [] then INIT else Step(At(Front(es)), Last(es))
  }

  lemma Extend(es: seq<Event>, e: Event)
    requires ValidRun(es) && ValidEvent(At(es), e)
    ensures ValidRun(es + [e]) && At(es + [e]) == Step(At(es), e)
  {
    assert Front(es + [e]) == es;
  }

  // ---------- freshness ----------

  predicate Writes(e: Event) {
    e.Store? || e.Invalidate?
  }

  /** Event `i` stored these addresses at time `t`, and the cache has not been written or
      invalidated since. */
  ghost predicate StandingStore(es: seq<Event>, i: nat, addresses: seq<string>, t: int) {
    && i < |es|
    && es[i].Store? && es[i].addresses == addresses && es[i].now == t
    && forall j :: i < j < |es| ==> !Writes(es[j])
  }

  /** The cache holds what the last write left in it. */
  lemma {:induction false} HoldsLastWrite(es: seq<Event>)
    requires ValidRun(es)
    ensures var c := At(es).cache;
            c == EMPTY || exists i: nat, t: int :: StandingStore(es, i, c.addresses, t) && c.expiresAt == t + TTL
    decreases |es|
  {
    if es == [] {
    } else {
      var n := |es| - 1;
      var front := Front(es);
      HoldsLastWrite(front);
      if es[n].Store? {
        assert StandingStore(es, n, es[n].addresses, es[n].now);
      } else if !es[n].Invalidate? && At(front).cache != EMPTY {
        var c := At(front).cache;
        var i: nat, t: int :| StandingStore(front, i, c.addresses, t) && c.expiresAt == t + TTL;
        assert StandingStore(es, i, c.addresses, t);
      }
    }
  }

  lemma {:induction false} StandingIsHeld(es: seq<Event>, i: nat, addresses: seq<string>, t: int)
    requires ValidRun(es) && StandingStore(es, i, addresses, t)
    ensures At(es).cache == Cache(addresses, t + TTL)
    decreases |es|
  {
    if i == |es| - 1 {
    } else {
      assert Front(es)[i] == es[i];
      StandingIsHeld(Front(es), i, addresses, t);
    }
  }

  /** Freshness, both ways: in every interleaving a list is served from the cache if and
      only if it is the non-empty list of the latest store, stored less than a minute ago
      and not invalidated since. */
  lemma Freshness(es: seq<Event>, now: int, addresses: seq<string>)
    requires ValidRun(es)
    ensures Served(At(es).cache, now) == Some(addresses)
            <==> addresses != [] && exists i: nat, t: int :: StandingStore(es, i, addresses, t) && now - t < 60 * SECOND
  {
    HoldsLastWrite(es);
    if i: nat, t: int :| StandingStore(es, i, addresses, t) && now - t < TTL {
      StandingIsHeld(es, i, addresses, t);
    }
  }

  // ---------- resolves that were in flight at an invalidation ----------

  /** Lookups still resolving are past events, and a store belongs to an earlier lookup. */
  lemma {:induction false} LookupsPrecede(es: seq<Event>)
    requires ValidRun(es)
    ensures At(es).events == |es|
    ensures forall l :: l in At(es).resolving ==> l < |es|
    ensures forall i :: 0 <= i < |es| && es[i].Store? ==> es[i].lookup < i
    decreases |es|
  {
    if es == [] {
    } else {
      LookupsPrecede(Front(es));
    }
  }

  lemma {:induction false} PrefixValid(es: seq<Event>, n: nat)
    requires ValidRun(es) && n <= |es|
    ensures ValidRun(es[..n])
    decreases |es|
  {
    if n == |es| {
      assert es[..n] == es;
    } else {
      PrefixValid(Front(es), n);
      assert Front(es)[..n] == es[..n];
    }
  }

  /** A lookup made before event `n` that is resolving, or stores, at or after `n` was resolving
      at `n`. */
  lemma {:induction false} StillResolving(es: seq<Event>, n: nat)
    requires ValidRun(es) && n <= |es| && ValidRun(es[..n])
    ensures forall l :: l < n && l in At(es).resolving ==> l in At(es[..n]).resolving
    ensures forall i :: n <= i < |es| && es[i].Store? && es[i].lookup < n ==>
              es[i].lookup in At(es[..n]).resolving
    decreases |es|
  {
    if n == |es| {
      assert es[..n] == es;
    } else {
      assert Front(es)[..n] == es[..n];
      StillResolving(Front(es), n);
      LookupsPrecede(Front(es));
    }
  }

  /** Per run: event `k` is the last invalidation, and the list now standing was stored after
      it. The list is stale, its lookup older than the invalidation, if and only if that very
      resolve was in flight when the cache was invalidated. */
  lemma StaleExactly(es: seq<Event>, k: nat, i: nat, addresses: seq<string>, t: int)
    requires ValidRun(es) && k < |es| && es[k] == Invalidate
    requires StandingStore(es, i, addresses, t)
    ensures k < i
    ensures ValidRun(es[..k])
    ensures es[i].lookup < k <==> es[i].lookup in At(es[..k]).resolving
  {
    PrefixValid(es, k);
    StillResolving(es, k);
    LookupsPrecede(es[..k]);
    assert Writes(es[k]);
  }

  ghost predicate NoInvalidate(cs: seq<Event>) {
    forall j :: 0 <= j < |cs| ==> !cs[j].Invalidate?
  }

  /** A lookup at time `now` is served a list that was itself looked up before event `k`. */
  ghost predicate ServesOlderThan(es: seq<Event>, now: int, k: nat)
    requires ValidRun(es)
  {
    var hit := Served(At(es).cache, now);
    hit.Some? && exists i: nat, t: int :: StandingStore(es, i, hit.value, t) && es[i].lookup < k
  }

  /** Invalidation is clean, exact condition: everything served until the next invalidation,
      under every continuation, was looked up after this one if and only if no resolve was in
      flight when it happened. */
  lemma CleanInvalidationExactly(es: seq<Event>)
    requires ValidRun(es)
    ensures (forall cs: seq<Event>, now: int :: ValidRun(es + [Invalidate] + cs) && NoInvalidate(cs) ==>
               !ServesOlderThan(es + [Invalidate] + cs, now, |es|))
            <==> At(es).resolving == {}
  {
    if At(es).resolving == {} {
      forall cs: seq<Event>, now: int | ValidRun(es + [Invalidate] + cs)
        ensures !ServesOlderThan(es + [Invalidate] + cs, now, |es|)
      {
        NothingStale(es, cs, now);
      }
    } else {
      var l :| l in At(es).resolving;
      var cs := StaleContinuation(es, l, ["198.18.0.42"]);
    }
  }

  lemma NothingStale(es: seq<Event>, cs: seq<Event>, now: int)
    requires ValidRun(es) && At(es).resolving == {} && ValidRun(es + [Invalidate] + cs)
    ensures !ServesOlderThan(es + [Invalidate] + cs, now, |es|)
  {
    var run, k := es + [Invalidate] + cs, |es|;
    assert run[..k] == es;
    forall i: nat, addresses: seq<string>, t: int | StandingStore(run, i, addresses, t)
      ensures run[i].lookup >= k
    {
      StaleExactly(run, k, i, addresses, t);
    }
  }

  /** A resolve in flight at an invalidation may store any list afterwards, which is then
      served. */
  lemma StaleContinuation(es: seq<Event>, l: nat, addresses: seq<string>) returns (cs: seq<Event>)
    requires ValidRun(es) && l in At(es).resolving && addresses != []
    ensures NoInvalidate(cs) && ValidRun(es + [Invalidate] + cs)
    ensures Served(At(es + [Invalidate] + cs).cache, At(es).clock) == Some(addresses)
    ensures ServesOlderThan(es + [Invalidate] + cs, At(es).clock, |es|)
  {
    var now := At(es).clock;
    var store := Store(l, addresses, now);
    Extend(es, Invalidate);
    Extend(es + [Invalidate], store);
    LookupsPrecede(es);
    cs := [store];
    var run := es + [Invalidate] + cs;
    assert StandingStore(run, |es| + 1, addresses, now);
  }

  // ---------- the cache object ----------

  class DialAddressCache {
    var addresses: seq<string>
    var expiresAt: int

    ghost function Contents(): Cache
      reads this
    {
      Cache(addresses, expiresAt)
    }

    constructor ()
      ensures Contents() == EMPTY
    {
      addresses, expiresAt := [], 0;
    }

    /** The half of `get` before the resolve. */
    method Lookup(now: int) returns (hit: Option<seq<string>>)
      ensures hit == Served(Contents(), now)
    {
      if |addresses| > 0 && now < expiresAt {
        return Some(addresses);
      }
      return None;
    }

    /** The half of `get` after the resolve. */
    method Store(resolved: seq<string>, now: int)
      modifies this
      ensures Contents() == Cache(resolved, now + TTL)
    {
      addresses := resolved;
      expiresAt := now + TTL;
    }

    /** What others do to the cache while one `get` resolves. */
    method Overlap(others: Cache -> Cache)
      modifies this
      ensures Contents() == others(old(Contents()))
    {
      var c := others(Cache(addresses, expiresAt));
      addresses, expiresAt := c.addresses, c.expiresAt;
    }

    /** `get`, with whatever others do to the cache while it resolves without the lock. */
    method Get(now: int, others: Cache -> Cache, resolved: Option<seq<string>>, storedAt: int)
      returns (r: Option<seq<string>>)
      modifies this
      ensures var hit := Served(old(Contents()), now);
              && r == (if hit.Some? then hit else resolved)
              && Contents() == if hit.Some? then old(Contents())
                               else if resolved.Some? then Cache(resolved.value, storedAt + TTL)
                               else others(old(Contents()))
    {
      r := Lookup(now);
      if r.Some? {
        return;
      }
      Overlap(others);
      if resolved.Some? {
        Store(resolved.value, storedAt);
      }
      return resolved;
    }

    method Invalidate()
      modifies this
      ensures Contents() == EMPTY
    {
      addresses := [];
      expiresAt := 0;
    }
  }
}
