/** Running a list of steps that can trade places pairwise gives the same
    result in every order. */
module Permutations {
  import opened Results

  /** The state after steps that must all succeed. */
  function RunAll<S, E>(apply: (S, E) -> Result<S>, s: S, steps: seq<E>): Result<S> {
    if steps == [] then Ok(s)
    else
      var before :- RunAll(apply, s, steps[..|steps| - 1]);
      apply(before, steps[|steps| - 1])
  }

  /** Two steps in a row. */
  function Both<S, E>(apply: (S, E) -> Result<S>, s: S, a: E, b: E): Result<S> {
    var t :- apply(s, a);
    apply(t, b)
  }

  /** Successful steps keep the invariant, and any two can trade places. */
  ghost predicate Swappable<S(!new), E(!new)>(apply: (S, E) -> Result<S>, inv: S -> bool, allowed: E -> bool) {
    && (forall s, a :: inv(s) && allowed(a) && apply(s, a).Ok? ==> inv(apply(s, a).value))
    && (forall s, a, b :: inv(s) && allowed(a) && allowed(b) && Both(apply, s, a, b).Ok? ==>
          Both(apply, s, b, a) == Both(apply, s, a, b))
  }

  ghost predicate AllAllowed<E>(allowed: E -> bool, steps: seq<E>) {
    forall i :: 0 <= i < |steps| ==> allowed(steps[i])
  }

  function Without<E>(steps: seq<E>, k: nat): seq<E>
    requires k < |steps|
  {
    steps[..k] + steps[k + 1..]
  }

  lemma WithoutFromFront<E>(steps: seq<E>, k: nat)
    requires k < |steps| - 1
    ensures Without(steps, k) == Without(steps[..|steps| - 1], k) + [steps[|steps| - 1]]
  {
  }

  lemma RunAllSnoc<S, E>(apply: (S, E) -> Result<S>, s: S, steps: seq<E>, last: E)
    ensures RunAll(apply, s, steps).Ok? ==> RunAll(apply, s, steps + [last]) == apply(RunAll(apply, s, steps).value, last)
  {
    assert (steps + [last])[..|steps|] == steps;
  }

  lemma {:induction false} RunAllFirst<S, E>(apply: (S, E) -> Result<S>, s: S, step: E, steps: seq<E>)
    ensures RunAll(apply, s, [step] + steps)
         == if apply(s, step).Ok? then RunAll(apply, apply(s, step).value, steps) else Err(apply(s, step).error)
    decreases |steps|
  {
    if steps == [] {
      assert [step] + steps == [step] && [step][..0] == [];
    } else {
      var n := |steps| - 1;
      RunAllFirst(apply, s, step, steps[..n]);
      assert ([step] + steps)[..n + 1] == [step] + steps[..n];
    }
  }

  lemma {:induction false} RunAllKeeps<S(!new), E(!new)>(apply: (S, E) -> Result<S>, inv: S -> bool, allowed: E -> bool, s: S, steps: seq<E>)
    requires Swappable(apply, inv, allowed) && inv(s) && AllAllowed(allowed, steps) && RunAll(apply, s, steps).Ok?
    ensures inv(RunAll(apply, s, steps).value)
  {
    if steps != [] {
      RunAllKeeps(apply, inv, allowed, s, steps[..|steps| - 1]);
    }
  }

  /** A step can be postponed to the end of the run. */
  lemma {:induction false} MoveToEnd<S(!new), E(!new)>(
    apply: (S, E) -> Result<S>, inv: S -> bool, allowed: E -> bool, s: S, steps: seq<E>, k: nat)
    requires Swappable(apply, inv, allowed) && inv(s) && AllAllowed(allowed, steps) && k < |steps|
    requires RunAll(apply, s, steps).Ok?
    ensures RunAll(apply, s, Without(steps, k)).Ok?
    ensures apply(RunAll(apply, s, Without(steps, k)).value, steps[k]) == RunAll(apply, s, steps)
    decreases |steps|
  {
    var n := |steps| - 1;
    if k == n {
      assert Without(steps, k) == steps[..n];
    } else {
      var others := Without(steps[..n], k);
      MoveToEnd(apply, inv, allowed, s, steps[..n], k);
      WithoutFromFront(steps, k);
      RunAllKeeps(apply, inv, allowed, s, others);
      var t := RunAll(apply, s, others).value;
      assert Both(apply, t, steps[k], steps[n]) == RunAll(apply, s, steps);
      RunAllSnoc(apply, s, others, steps[n]);
    }
  }

  lemma RemoveOne<E>(xs: seq<E>, ys: seq<E>, k: nat)
    requires ys != [] && k < |xs| && xs[k] == ys[|ys| - 1] && multiset(xs) == multiset(ys)
    ensures multiset(Without(xs, k)) == multiset(ys[..|ys| - 1])
  {
    assert xs == xs[..k] + [xs[k]] + xs[k + 1..];
    assert ys == ys[..|ys| - 1] + [ys[|ys| - 1]];
    assert multiset(xs) == multiset(Without(xs, k)) + multiset{xs[k]};
    assert multiset(ys) == multiset(ys[..|ys| - 1]) + multiset{xs[k]};
    Cancel(multiset(Without(xs, k)), multiset(ys[..|ys| - 1]), multiset{xs[k]});
  }

  lemma Cancel<E>(a: multiset<E>, b: multiset<E>, c: multiset<E>)
    requires a + c == b + c
    ensures a == b
  {
    assert a == (a + c) - c && b == (b + c) - c;
  }

  lemma {:induction false} AnyOrder<S(!new), E(!new)>(
    apply: (S, E) -> Result<S>, inv: S -> bool, allowed: E -> bool, s: S, xs: seq<E>, ys: seq<E>)
    requires Swappable(apply, inv, allowed) && inv(s) && AllAllowed(allowed, xs) && multiset(xs) == multiset(ys)
    requires RunAll(apply, s, xs).Ok?
    ensures RunAll(apply, s, ys) == RunAll(apply, s, xs)
    decreases |ys|
  {
    if ys == [] {
      assert |multiset(xs)| == |xs|;
    } else {
      var last := ys[|ys| - 1];
      assert last in multiset(ys);
      var k :| 0 <= k < |xs| && xs[k] == last;
      MoveToEnd(apply, inv, allowed, s, xs, k);
      RemoveOne(xs, ys, k);
      AnyOrder(apply, inv, allowed, s, Without(xs, k), ys[..|ys| - 1]);
    }
  }
}
