/** Rewinding and coarsening of times. */
module Timestamps {

  /** `u64` times, and durations counted in nanoseconds: subtract, or stay. */
  function Rewind(t: nat, slack: nat): nat {
    if t < slack then t else t - slack
  }

  /** Rewinding never goes past the time, and lags by exactly the slack once the
      time has reached it. */
  lemma RewindLags(t: nat, slack: nat)
    ensures Rewind(t, slack) <= t
    ensures Rewind(t, slack) == t - slack <==> slack <= t
  {
  }

  /** Rewinding keeps the order of two times unless the slack lies between them
      and they are closer than the slack. */
  lemma RewindMonotoneIff(s: nat, t: nat, slack: nat)
    requires s <= t
    ensures Rewind(s, slack) <= Rewind(t, slack) <==> !(s < slack <= t && t - s < slack)
  {
  }

  function Coarsen(t: nat, window: nat): nat
    requires window > 0
  {
    (t / window + 1) * window
  }

  /** Coarsening delays to the next multiple of the window: a multiple, strictly
      later, and the first such. */
  lemma CoarsenIsNextMultiple(t: nat, window: nat)
    requires window > 0
    ensures t < Coarsen(t, window) <= t + window
    ensures Coarsen(t, window) % window == 0
    ensures forall m: nat :: t < m && m % window == 0 ==> Coarsen(t, window) <= m
  {
    var q := t / window;
    assert t == q * window + t % window;
    assert Coarsen(t, window) == q * window + window;
    MultipleMod(q + 1, window);
    forall m: nat | t < m && m % window == 0 ensures Coarsen(t, window) <= m {
      var k := m / window;
      assert m == k * window;
      MulMonotone(k, q, window);
      MulMonotone(q + 1, k, window);
    }
  }

  lemma MulMonotone(a: nat, b: nat, w: nat)
    ensures a <= b ==> a * w <= b * w
  {
    if a <= b { assert b * w == a * w + (b - a) * w; }
  }

  lemma {:induction false} MultipleMod(k: nat, w: nat)
    requires w > 0
    ensures (k * w) % w == 0
  {
    if k != 0 {
      MultipleMod(k - 1, w);
      assert k * w == (k - 1) * w + w;
      ModAddSelf((k - 1) * w, w);
    }
  }

  lemma ModAddSelf(a: nat, w: nat)
    requires w > 0 && a % w == 0
    ensures (a + w) % w == 0
  {
    var q := a / w;
    assert a == q * w;
    assert a + w == (q + 1) * w + 0;
    QuotientUnique(a + w, q + 1, 0, w);
  }

  lemma QuotientUnique(a: nat, q: nat, r: nat, w: nat)
    requires w > 0 && a == q * w + r && r < w
    ensures a % w == r && a / w == q
  {
    var q', r' := a / w, a % w;
    assert a == q' * w + r';
    MulMonotone(q' + 1, q, w);
    MulMonotone(q + 1, q', w);
    assert (q' + 1) * w == q' * w + w && (q + 1) * w == q * w + w;
  }

  //
  // Durations are coarsened by seconds and nanoseconds separately
  //

  const NANOS: nat := 1_000_000_000

  /** A duration in nanoseconds; `secs` whole seconds and the rest. */
  function CoarsenDuration(t: nat, window: nat): nat {
    var ws, wn := window / NANOS, window % NANOS;
    var secs := if ws == 0 then t / NANOS else Coarsen(t / NANOS, ws);
    var nanos := if wn == 0 then 0 else Coarsen(t % NANOS, wn);
    secs * NANOS + nanos
  }

  /** The part of a duration that the windows of its seconds and of its
      nanoseconds, taken on their own, have fully covered. */
  function Truncated(t: nat, window: nat): nat {
    var s, n, ws, wn := t / NANOS, t % NANOS, window / NANOS, window % NANOS;
    (if ws == 0 then s else s / ws * ws) * NANOS + (if wn == 0 then 0 else n / wn * wn)
  }

  lemma TruncatedIs(t: nat, window: nat)
    requires window > 0
    ensures CoarsenDuration(t, window) == Truncated(t, window) + window
    ensures Truncated(t, window) <= t < Truncated(t, window) + window
  {
    var s, n, ws, wn := t / NANOS, t % NANOS, window / NANOS, window % NANOS;
    assert t == s * NANOS + n && window == ws * NANOS + wn;
    var s', n' := if ws == 0 then s else s / ws * ws, if wn == 0 then 0 else n / wn * wn;
    if ws != 0 {
      assert s == s / ws * ws + s % ws;
      assert Coarsen(s, ws) == s' + ws;
      MulMonotone(s' , s, NANOS);
      MulMonotone(s + 1, s' + ws, NANOS);
    }
    if wn != 0 {
      assert n == n / wn * wn + n % wn;
      assert Coarsen(n, wn) == n' + wn;
    }
  }

  lemma NextMultipleIff(u: nat, t: nat, window: nat)
    requires u <= t < u + window
    ensures u + window == Coarsen(t, window) <==> u % window == 0
  {
    var q := t / window;
    assert Coarsen(t, window) == q * window + window;
    if u % window == 0 {
      var k := u / window;
      assert u == k * window;
      QuotientUnique(t, k, t - u, window);
    } else {
      MultipleMod(q, window);
    }
  }

  /** A duration is delayed to the next multiple of the window exactly if its
      truncated part is a multiple. */
  lemma DurationCoarsensIff(t: nat, window: nat)
    requires window > 0
    ensures CoarsenDuration(t, window) == Coarsen(t, window) <==> Truncated(t, window) % window == 0
  {
    TruncatedIs(t, window);
    NextMultipleIff(Truncated(t, window), t, window);
  }

  /** For windows of whole seconds that is always so. */
  lemma WholeSecondsCoarsen(t: nat, secs: nat)
    requires secs > 0
    ensures CoarsenDuration(t, secs * NANOS) == Coarsen(t, secs * NANOS)
  {
    var window, q := secs * NANOS, t / NANOS / secs;
    QuotientUnique(window, secs, 0, NANOS);
    assert Truncated(t, window) == q * secs * NANOS == q * window;
    MultipleMod(q, window);
    DurationCoarsensIff(t, window);
  }

  /** For windows below a second it is so exactly when the whole seconds of the
      time are a multiple of the window. */
  lemma SubSecondCoarsenIff(t: nat, window: nat)
    requires 0 < window < NANOS
    ensures CoarsenDuration(t, window) == Coarsen(t, window) <==> (t / NANOS * NANOS) % window == 0
  {
    var s, c := t / NANOS * NANOS, t % NANOS / window;
    assert window / NANOS == 0 && window % NANOS == window;
    assert Truncated(t, window) == s + c * window;
    DurationCoarsensIff(t, window);
    MultipleShifts(s, c, window);
  }

  lemma MultipleShifts(s: nat, c: nat, window: nat)
    requires window > 0
    ensures (s + c * window) % window == s % window
  {
    var q, r := s / window, s % window;
    assert s == q * window + r;
    assert s + c * window == (q + c) * window + r;
    QuotientUnique(s + c * window, q + c, r, window);
  }

  /** A window of seconds and nanoseconds for which it is not: 2.1 seconds in
      windows of 1.5 seconds are delayed to 3.5, not to 3. */
  lemma MixedWindowOvershoots()
    ensures Truncated(2_100_000_000, 1_500_000_000) % 1_500_000_000 != 0
    ensures CoarsenDuration(2_100_000_000, 1_500_000_000) == 3_500_000_000
    ensures Coarsen(2_100_000_000, 1_500_000_000) == 3_000_000_000
  {
  }
}
