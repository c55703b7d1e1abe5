/** Keeping the elements of a sequence whose numbers are not in a given set. */
module Selection {

  /** The kept elements, in order; `k` is the number of the first element. */
  function Kept<T>(hidden: set<nat>, k: nat, xs: seq<T>): seq<T>
    decreases |xs|
  {
    if xs == [] then []
    else
      var n := |xs| - 1;
      Kept(hidden, k, xs[..n]) + if k + n in hidden then [] else [xs[n]]
  }

  lemma {:induction false} KeptConcat<T>(hidden: set<nat>, k: nat, a: seq<T>, b: seq<T>)
    ensures Kept(hidden, k, a + b) == Kept(hidden, k, a) + Kept(hidden, k + |a|, b)
    decreases |b|
  {
    if b == [] {
      assert a + b == a;
    } else {
      var n := |b| - 1;
      KeptConcat(hidden, k, a, b[..n]);
      assert (a + b)[..|a| + n] == a + b[..n];
    }
  }

  lemma KeptOne<T>(hidden: set<nat>, k: nat, x: T)
    ensures Kept(hidden, k, [x]) == if k in hidden then [] else [x]
  {
    assert [x][..0] == [];
  }

  lemma KeptSnoc<T>(hidden: set<nat>, k: nat, xs: seq<T>, x: T)
    ensures Kept(hidden, k, xs + [x]) == Kept(hidden, k, xs) + if k + |xs| in hidden then [] else [x]
  {
    assert (xs + [x])[..|xs|] == xs;
  }

  lemma KeptOnto<T>(hidden: set<nat>, k: nat, out: seq<T>, a: seq<T>, b: seq<T>)
    ensures out + Kept(hidden, k, a + b) == out + Kept(hidden, k, a) + Kept(hidden, k + |a|, b)
  {
    KeptConcat(hidden, k, a, b);
  }

  lemma DropFirst<T>(x: T, xs: seq<T>, n: nat)
    requires n <= |xs|
    ensures ([x] + xs)[n + 1..] == xs[n..]
  {
  }

  lemma SplitInFirst<T>(a: seq<T>, b: seq<T>, n: nat)
    requires n <= |a|
    ensures (a + b)[..n] == a[..n] && (a + b)[n..] == a[n..] + b
  {
  }
}
