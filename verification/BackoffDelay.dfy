/**
 * The delay between restart attempts. Durations are whole nanoseconds; a product with the multiplier
 * is cut to a whole number, toward zero.
 */
module BackoffDelay {

  datatype Backoff = Backoff(initial: int, max: int, multiplier: real)

  const DEFAULT := Backoff(500_000_000, 30_000_000_000, 2.0)

  /** The backoff a registration gets: one whose fields are all zero stands for the default. */
  function Registered(b: Backoff): Backoff {
    if b == Backoff(0, 0, 0.0) then DEFAULT else b
  }

  function Truncate(r: real): (n: int)
    ensures if r < 0.0 then r <= n as real < r + 1.0 && n <= 0 else r - 1.0 < n as real <= r && n >= 0
  {
    if r < 0.0 then -(-r).Floor else r.Floor
  }

  function Times(x: real, y: real): real { x * y }

  function Next(b: Backoff, current: int): int {
    if current <= 0 then b.initial
    else
      var next := Truncate(Times(current as real, b.multiplier));
      if next > b.max then b.max else next
  }

  /** The delay before the k-th attempt; it is never reset. */
  function Delay(b: Backoff, k: nat): int {
    if k == 0 then 0 else Next(b, Delay(b, k - 1))
  }

  function Pow(m: real, k: nat): real {
    if k == 0 then 1.0 else Times(Pow(m, k - 1), m)
  }

  function Min(x: real, y: real): real { if x <= y then x else y }

  /** The delay without rounding: exponential growth up to the maximum. */
  function Ideal(b: Backoff, k: nat): real
    requires k > 0
  {
    Min(Times(b.initial as real, Pow(b.multiplier, k - 1)), b.max as real)
  }

  ghost predicate Growing(b: Backoff) { 0 < b.initial <= b.max && b.multiplier >= 1.0 }

  predicate Whole(r: real) { r == r.Floor as real }

  // ---------------------------------------------------------------- multiplication

  lemma Scales(x: real, y: real, m: real)
    requires x <= y && m >= 0.0
    ensures Times(x, m) <= Times(y, m)
  {}

  lemma AtLeast(x: real, m: real)
    requires x >= 0.0 && m >= 1.0
    ensures Times(x, m) >= x
  {}

  lemma Regroup(i: real, p: real, m: real)
    ensures Times(i, Times(p, m)) == Times(Times(i, p), m)
  {}

  lemma WholeTimes(x: int, y: int)
    ensures Times(x as real, y as real) == (x * y) as real
  {}

  lemma WholeIff(r: real, n: int)
    requires r == n as real
    ensures Whole(r)
  {}

  lemma {:induction false} PowAtLeastOne(m: real, k: nat)
    requires m >= 1.0
    ensures Pow(m, k) >= 1.0
  {
    hide Times;
    if k > 0 {
      PowAtLeastOne(m, k - 1);
      AtLeast(Pow(m, k - 1), m);
    }
  }

  // ---------------------------------------------------------------- the closed form

  /** One more step of the unrounded delay is the previous one times the multiplier, capped. */
  lemma IdealStep(b: Backoff, k: nat)
    requires Growing(b) && k > 0
    ensures Ideal(b, k) > 0.0 && Ideal(b, k + 1) == Min(Times(Ideal(b, k), b.multiplier), b.max as real)
  {
    hide Times;
    var i, p, m, top := b.initial as real, Pow(b.multiplier, k - 1), b.multiplier, b.max as real;
    PowAtLeastOne(m, k - 1);
    AtLeast(i, p);
    Regroup(i, p, m);
    assert Pow(m, k) == Times(p, m);
    if Times(i, p) > top {
      Scales(top, Times(i, p), m);
      AtLeast(top, m);
    }
  }

  /** Rounding down a product that is whole or above the maximum, and capping it, loses nothing. */
  lemma NextIsIdeal(b: Backoff, current: int)
    requires current > 0 && b.multiplier >= 1.0
    requires Whole(Min(Times(current as real, b.multiplier), b.max as real))
    ensures Next(b, current) as real == Min(Times(current as real, b.multiplier), b.max as real)
  {
    hide Times;
    var product := Times(current as real, b.multiplier);
    AtLeast(current as real, b.multiplier);
    if product > b.max as real {
      assert product.Floor >= b.max;
    }
  }

  lemma {:induction false} WholeGivesIdeal(b: Backoff, n: nat, k: nat)
    requires Growing(b) && 0 < k <= n && forall j :: 0 < j <= n ==> Whole(Ideal(b, j))
    ensures Delay(b, k) as real == Ideal(b, k)
  {
    hide Times, Whole;
    if k == 1 {
      FirstDelay(b);
    } else {
      hide Ideal, Next;
      WholeGivesIdeal(b, n, k - 1);
      IdealStep(b, k - 1);
      assert Whole(Ideal(b, k));
      NextIsIdeal(b, Delay(b, k - 1));
      assert Delay(b, k) == Next(b, Delay(b, k - 1));
    }
  }

  lemma FirstDelay(b: Backoff)
    ensures Delay(b, 1) == b.initial
    ensures Ideal(b, 1) == Min(b.initial as real, b.max as real)
  {
    assert Delay(b, 0) == 0 && Pow(b.multiplier, 0) == 1.0;
  }

  /**
   * The first n delays are each the smaller of initial * multiplier^(k-1) and the maximum, if and only
   * if none of these values has a fraction.
   */
  lemma ClosedFormExactly(b: Backoff, n: nat)
    requires Growing(b)
    ensures (forall k :: 0 < k <= n ==> Delay(b, k) as real == Ideal(b, k))
       <==> (forall k :: 0 < k <= n ==> Whole(Ideal(b, k)))
  {
    hide Ideal, Delay, Times;
    if forall k :: 0 < k <= n ==> Whole(Ideal(b, k)) {
      forall k | 0 < k <= n ensures Delay(b, k) as real == Ideal(b, k) {
        WholeGivesIdeal(b, n, k);
      }
    }
    if forall k :: 0 < k <= n ==> Delay(b, k) as real == Ideal(b, k) {
      forall k | 0 < k <= n ensures Whole(Ideal(b, k)) {
        assert Delay(b, k) as real == Ideal(b, k);
        WholeIff(Ideal(b, k), Delay(b, k));
      }
    }
  }

  lemma {:induction false} WholePow(m: nat, k: nat)
    ensures Whole(Pow(m as real, k))
  {
    hide Times;
    if k > 0 {
      WholePow(m, k - 1);
      var p := Pow(m as real, k - 1).Floor;
      WholeTimes(p, m);
      WholeIff(Pow(m as real, k), p * m);
    }
  }

  /** A whole multiplier, such as the default's, never rounds. */
  lemma WholeMultiplier(b: Backoff, m: nat, k: nat)
    requires Growing(b) && b.multiplier == m as real && k > 0
    ensures Delay(b, k) as real == Ideal(b, k)
  {
    hide Times, Delay, Pow, Whole;
    forall j | 0 < j <= k ensures Whole(Ideal(b, j)) {
      WholePow(m, j - 1);
      var p := WholeFloor(Pow(m as real, j - 1));
      WholeTimes(b.initial, p);
      WholeIff(Times(b.initial as real, p as real), b.initial * p);
      WholeIff(b.max as real, b.max);
    }
    WholeGivesIdeal(b, k, k);
  }

  /** A registration without a backoff waits half a second, then twice as long each time, up to thirty. */
  lemma DefaultDelays(k: nat)
    requires k > 0
    ensures Delay(Registered(Backoff(0, 0, 0.0)), k) as real
         == Min(Times(500_000_000.0, Pow(2.0, k - 1)), 30_000_000_000.0)
  {
    hide Times, Pow, Delay;
    WholeMultiplier(DEFAULT, 2, k);
  }

  lemma WholeFloor(r: real) returns (n: int)
    requires Whole(r)
    ensures r == n as real
  {
    n := r.Floor;
  }

  // ---------------------------------------------------------------- bounds for any multiplier

  /** With any multiplier, the delays respect the maximum if and only if the first one does. */
  lemma BoundedExactly(b: Backoff)
    ensures (forall k: nat :: Bounded(b, k)) <==> b.initial <= b.max
  {
    hide Times, Truncate;
    FirstDelay(b);
    if b.initial <= b.max {
      forall k: nat ensures Bounded(b, k) {
        if k > 0 {
          assert Delay(b, k) == Next(b, Delay(b, k - 1));
        }
      }
    } else {
      assert !Bounded(b, 1);
    }
  }

  ghost predicate Bounded(b: Backoff, k: nat) { k > 0 ==> Delay(b, k) <= b.max }

  /** With a multiplier of at least one the delays start at the initial one and never shrink. */
  lemma {:induction false} NeverShrinks(b: Backoff, k: nat)
    requires Growing(b) && k > 0
    ensures b.initial <= Delay(b, k) <= Delay(b, k + 1) <= b.max
  {
    hide Times;
    if k == 1 {
      FirstDelay(b);
    } else {
      NeverShrinks(b, k - 1);
    }
    NextGrows(b, Delay(b, k));
    assert Delay(b, k + 1) == Next(b, Delay(b, k));
  }

  lemma NextGrows(b: Backoff, d: int)
    requires b.multiplier >= 1.0 && 0 < d <= b.max
    ensures d <= Next(b, d) <= b.max
  {
    hide Times;
    AtLeast(d as real, b.multiplier);
    assert Times(d as real, b.multiplier).Floor >= d;
  }

  lemma {:induction false} NeverWaits(b: Backoff, k: nat)
    requires k > 0 && b.initial <= 0
    ensures Delay(b, k) == b.initial
  {
    if k > 1 {
      NeverWaits(b, k - 1);
    }
  }

  ghost predicate NoWait(b: Backoff, k: nat) { k > 0 ==> Delay(b, k) <= 0 }

  /** Of a registration that is not the zero value, no attempt ever waits if and only if Initial is not positive. */
  lemma NoWaitExactly(b: Backoff)
    requires b != Backoff(0, 0, 0.0)
    ensures Delay(Registered(b), 1) == b.initial
    ensures (forall k: nat :: NoWait(Registered(b), k)) <==> b.initial <= 0
  {
    FirstDelay(b);
    if b.initial <= 0 {
      forall k: nat ensures NoWait(b, k) {
        if k > 0 {
          NeverWaits(b, k);
        }
      }
    } else {
      assert !NoWait(b, 1);
    }
  }
}
