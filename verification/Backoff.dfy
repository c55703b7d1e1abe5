/** Capped exponential backoff with symmetric jitter.
 *
 * The program writes the same computation three times: for the Mihomo circuit, for the
 * DoH providers and for restarting children. Durations are int64 nanoseconds; the
 * wrap-around of a doubling is written out with `Wrap64`. A random draw is a parameter:
 * any value that `rand.Int63n(2*spread + 1)` can return.
 */
module Backoff {

  const MILLISECOND: int := 1_000_000
  const SECOND: int := 1_000_000_000
  const MINUTE: int := 60 * SECOND

  const TWO_62: int := 0x4000_0000_0000_0000
  const TWO_63: int := 0x8000_0000_0000_0000
  const TWO_64: int := 0x1_0000_0000_0000_0000

  function Min(a: int, b: int): int {
    if a <= b then a else b
  }

  /** Two's-complement reduction to the int64 range. */
  function Wrap64(x: int): (r: int)
    ensures -TWO_63 <= r < TWO_63
    ensures (x - r) % TWO_64 == 0
    ensures -TWO_63 <= x < TWO_63 ==> r == x
  {
    (x + TWO_63) % TWO_64 - TWO_63
  }

  function Pow2(n: nat): (p: int)
    ensures p >= 1
  {
    if n == 0 then 1 else 2 * Pow2(n - 1)
  }

  // ---------- the doubling loop ----------

  /** What the doubling loop computes from `delay` with `rounds` rounds left, in int64. */
  function Doubling(delay: int, maximum: int, rounds: nat): int
    decreases rounds
  {
    if rounds == 0 || delay >= maximum then delay
    else
      var next := Wrap64(delay * 2);
      if next >= maximum then maximum else Doubling(next, maximum, rounds - 1)
  }

  function Rounds(step: nat): nat {
    if step == 0 then 0 else step - 1
  }

  /** The closed form: initial * 2^(step-1), cut off at `maximum`. */
  function Nominal(initial: int, maximum: int, step: nat): int {
    if initial >= maximum then initial else Min(initial * Pow2(Rounds(step)), maximum)
  }

  method ExponentialDelay(initial: int, maximum: int, step: nat) returns (delay: int)
    ensures delay == Doubling(initial, maximum, Rounds(step))
    ensures 0 < initial <= TWO_62 && maximum <= TWO_62 ==> delay == Nominal(initial, maximum, step)
  {
    if 0 < initial <= TWO_62 && maximum <= TWO_62 {
      DoublingClosedForm(initial, maximum, Rounds(step));
    }
    delay := initial;
    var i := 1;
    while i < step && delay < maximum
      invariant 1 <= i && (i <= step || i == 1)
      invariant Doubling(delay, maximum, if step <= i then 0 else step - i)
             == Doubling(initial, maximum, Rounds(step))
      decreases step - i
    {
      delay := Wrap64(delay * 2);
      if delay >= maximum {
        return maximum;
      }
      i := i + 1;
    }
  }

  lemma {:induction false} DoublingClosedForm(delay: int, maximum: int, rounds: nat)
    requires 0 < delay <= TWO_62 && maximum <= TWO_62
    ensures Doubling(delay, maximum, rounds)
         == if delay >= maximum then delay else Min(delay * Pow2(rounds), maximum)
    decreases rounds
  {
    if rounds == 0 || delay >= maximum {
    } else {
      PowStep(delay, rounds - 1);
      if 2 * delay < maximum {
        DoublingClosedForm(2 * delay, maximum, rounds - 1);
      }
    }
  }

  lemma PowStep(delay: int, k: nat)
    requires 0 <= delay
    ensures delay * Pow2(k + 1) == (2 * delay) * Pow2(k) >= 2 * delay
  {
    var p := Pow2(k);
    assert delay * (2 * p) == (2 * delay) * p;
    ScaleUp(2 * delay, p);
  }

  lemma ScaleUp(a: int, k: int)
    requires a >= 0 && k >= 1
    ensures a * k >= a
  {
    assert a * k == a + a * (k - 1);
  }

  /** 2^62 ns is exactly how far the closed form reaches: at any larger maximum some
      initial delay overflows int64 on its first doubling and turns negative. */
  lemma ClosedFormExactRange(maximum: int)
    requires 0 < maximum < TWO_63
    ensures (forall initial: int, step: nat :: 0 < initial <= maximum && step >= 1 ==>
               Doubling(initial, maximum, Rounds(step)) == Nominal(initial, maximum, step))
            <==> maximum <= TWO_62
  {
    if maximum <= TWO_62 {
      forall initial: int, step: nat | 0 < initial <= maximum && step >= 1
        ensures Doubling(initial, maximum, Rounds(step)) == Nominal(initial, maximum, step)
      {
        DoublingClosedForm(initial, maximum, Rounds(step));
      }
    } else {
      assert Wrap64(TWO_62 * 2) == -TWO_63;
      assert Rounds(2) == 1 && Pow2(1) == 2 * Pow2(0);
      assert Doubling(TWO_62, maximum, 1) == Doubling(-TWO_63, maximum, 0) == -TWO_63;
      assert Doubling(TWO_62, maximum, Rounds(2)) != Nominal(TWO_62, maximum, 2);
    }
  }

  lemma NominalStep(initial: int, maximum: int, step: nat)
    requires 0 < initial <= maximum && step >= 1
    ensures initial <= Nominal(initial, maximum, step) <= maximum
    ensures Nominal(initial, maximum, step + 1) == Min(2 * Nominal(initial, maximum, step), maximum)
  {
    ScaleUp(initial, Pow2(step - 1));
    assert Pow2(step) == 2 * Pow2(step - 1);
    assert initial * Pow2(step) == 2 * (initial * Pow2(step - 1));
  }

  lemma NominalPositive(initial: int, maximum: int, step: nat)
    requires 0 < initial && 0 < maximum
    ensures Nominal(initial, maximum, step) >= Min(initial, maximum) > 0
    ensures Nominal(initial, maximum, step) <= maximum || Nominal(initial, maximum, step) == initial
  {
    ScaleUp(initial, Pow2(Rounds(step)));
  }

  // ---------- jitter ----------

  predicate LegalDraw(nominal: int, draw: int) {
    0 <= draw <= 2 * (nominal / 5)
  }

  function Jitter(nominal: int, maximum: int, draw: int): int {
    if nominal <= 0 then 0
    else
      var spread := nominal / 5;
      if spread == 0 then nominal
      else Min(nominal - spread + draw, maximum)
  }

  predicate InEnvelope(nominal: int, maximum: int, delay: int) {
    Min(nominal - nominal / 5, maximum) <= delay <= Min(nominal + nominal / 5, maximum)
  }

  /** The jittered delays are exactly the integers of the envelope
      [n - n/5, n + n/5] cut off at `maximum`: none outside, none missing. */
  lemma JitterEnvelope(nominal: int, maximum: int, delay: int)
    requires 0 < nominal && 0 < maximum
    requires nominal <= maximum || 5 <= nominal
    ensures (exists draw :: LegalDraw(nominal, draw) && delay == Jitter(nominal, maximum, draw))
            <==> InEnvelope(nominal, maximum, delay)
  {
    var spread := nominal / 5;
    if InEnvelope(nominal, maximum, delay) {
      var draw := if delay == maximum && nominal - spread > maximum then 0 else delay - (nominal - spread);
      assert LegalDraw(nominal, draw) && delay == Jitter(nominal, maximum, draw);
    }
  }

  /** `jitterDelay` in int64, where the sum of nominal delay and draw may wrap around. */
  method JitterDelay(nominal: int, maximum: int, draw: int) returns (delay: int)
    ensures delay == JitterInt64(nominal, maximum, draw)
    ensures nominal + nominal / 5 < TWO_63 && LegalDraw(nominal, draw) ==> delay == Jitter(nominal, maximum, draw)
  {
    if nominal <= 0 {
      return 0;
    }
    var spread := nominal / 5;
    if spread == 0 {
      return nominal;
    }
    delay := Wrap64(nominal - spread + draw);
    if delay > maximum {
      return maximum;
    }
  }

  function JitterInt64(nominal: int, maximum: int, draw: int): int {
    if nominal <= 0 then 0
    else if nominal / 5 == 0 then nominal
    else Min(Wrap64(nominal - nominal / 5 + draw), maximum)
  }

  /** The range of the unbounded form, exactly: no draw overflows int64 if and only if
      n + n/5 < 2^63, that is for nominal delays of up to about 5/6 of 2^63 ns. */
  lemma JitterExactRange(nominal: int, maximum: int)
    requires 0 < nominal < TWO_63 && 0 < maximum < TWO_63
    ensures (forall draw :: LegalDraw(nominal, draw) ==>
               JitterInt64(nominal, maximum, draw) == Jitter(nominal, maximum, draw))
            <==> nominal + nominal / 5 < TWO_63
  {
    var highest := 2 * (nominal / 5);
    if nominal + nominal / 5 >= TWO_63 {
      assert LegalDraw(nominal, highest);
      assert JitterInt64(nominal, maximum, highest) < 0 < Jitter(nominal, maximum, highest);
    }
  }

  /** In int64 the possible delays are those of the envelope if and only if n + n/5 < 2^63;
      beyond that some draw gives a negative delay. */
  lemma JitterEnvelopeInt64(nominal: int, maximum: int)
    requires 0 < nominal < TWO_63 && 0 < maximum < TWO_63
    requires nominal <= maximum || 5 <= nominal
    ensures (forall delay ::
               (exists draw :: LegalDraw(nominal, draw) && delay == JitterInt64(nominal, maximum, draw))
               <==> InEnvelope(nominal, maximum, delay))
            <==> nominal + nominal / 5 < TWO_63
  {
    JitterExactRange(nominal, maximum);
    if nominal + nominal / 5 < TWO_63 {
      forall delay
        ensures (exists draw :: LegalDraw(nominal, draw) && delay == JitterInt64(nominal, maximum, draw))
                <==> InEnvelope(nominal, maximum, delay)
      {
        JitterEnvelope(nominal, maximum, delay);
      }
    } else {
      var highest := 2 * (nominal / 5);
      var delay := JitterInt64(nominal, maximum, highest);
      assert LegalDraw(nominal, highest) && delay < 0;
      assert !InEnvelope(nominal, maximum, delay);
    }
  }

  /** Two consecutive failed probes: whatever is drawn, the second delay is the longer
      one as long as 3*n < 2*maximum. For delays that are multiples of 5 ns, such as whole
      microseconds, this bound is exact. */
  lemma JitterGrowth(initial: int, maximum: int, step: nat)
    requires 0 < initial <= maximum && step >= 1
    ensures var n := Nominal(initial, maximum, step);
            var n' := Nominal(initial, maximum, step + 1);
            && (3 * n < 2 * maximum ==>
                  forall d, d' :: LegalDraw(n, d) && LegalDraw(n', d') ==>
                    Jitter(n, maximum, d) < Jitter(n', maximum, d'))
            && (n % 5 == 0 && maximum % 5 == 0 && 3 * n >= 2 * maximum ==>
                  exists d, d' :: LegalDraw(n, d) && LegalDraw(n', d') &&
                    Jitter(n, maximum, d) >= Jitter(n', maximum, d'))
  {
    NominalStep(initial, maximum, step);
    var n := Nominal(initial, maximum, step);
    var n' := Nominal(initial, maximum, step + 1);
    if n % 5 == 0 && maximum % 5 == 0 && 3 * n >= 2 * maximum {
      assert n' == maximum;
      assert LegalDraw(n, 2 * (n / 5)) && LegalDraw(n', 0);
      assert Jitter(n, maximum, 2 * (n / 5)) >= Jitter(n', maximum, 0);
    }
  }

  // ---------- the two other copies of the computation ----------

  const DOH_MAXIMUM: int := 5 * MINUTE
  const RESTART_INITIAL: int := SECOND
  const RESTART_MAXIMUM: int := 30 * SECOND

  method JitterDoHBackoff(step: nat, draw: int) returns (jittered: int)
    requires LegalDraw(Nominal(SECOND, 300 * SECOND, step), draw)
    ensures jittered == Jitter(Nominal(SECOND, 300 * SECOND, step), 300 * SECOND, draw)
    ensures 800 * MILLISECOND <= jittered <= 300 * SECOND
  {
    DoublingClosedForm(SECOND, DOH_MAXIMUM, Rounds(step));
    NominalPositive(SECOND, DOH_MAXIMUM, step);
    var delay := SECOND;
    var current := 1;
    while current < step && delay < DOH_MAXIMUM
      invariant 1 <= current && (current <= step || current == 1)
      invariant 0 < delay
      invariant Doubling(delay, DOH_MAXIMUM, if step <= current then 0 else step - current)
             == Nominal(SECOND, DOH_MAXIMUM, step)
      decreases step - current
    {
      delay := Wrap64(delay * 2);
      if delay >= DOH_MAXIMUM {
        delay := DOH_MAXIMUM;
        break;
      }
      current := current + 1;
    }
    var spread := delay / 5;
    jittered := delay - spread + draw;
    if jittered > DOH_MAXIMUM {
      jittered := DOH_MAXIMUM;
    }
  }

  method RestartDelay(step: nat, draw: int) returns (delay: int)
    requires LegalDraw(Nominal(SECOND, 30 * SECOND, step), draw)
    ensures delay == Jitter(Nominal(SECOND, 30 * SECOND, step), 30 * SECOND, draw)
    ensures 800 * MILLISECOND <= delay <= 30 * SECOND
  {
    DoublingClosedForm(RESTART_INITIAL, RESTART_MAXIMUM, Rounds(step));
    NominalPositive(RESTART_INITIAL, RESTART_MAXIMUM, step);
    var nominal := RESTART_INITIAL;
    var i := 1;
    while i < step && nominal < RESTART_MAXIMUM
      invariant 1 <= i && (i <= step || i == 1)
      invariant 0 < nominal
      invariant Doubling(nominal, RESTART_MAXIMUM, if step <= i then 0 else step - i)
             == Nominal(RESTART_INITIAL, RESTART_MAXIMUM, step)
      decreases step - i
    {
      nominal := Wrap64(nominal * 2);
      if nominal >= RESTART_MAXIMUM {
        nominal := RESTART_MAXIMUM;
        break;
      }
      i := i + 1;
    }
    var spread := nominal / 5;
    delay := nominal - spread + draw;
    if delay > RESTART_MAXIMUM {
      delay := RESTART_MAXIMUM;
    }
  }
}
