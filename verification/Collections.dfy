/** Update streams. A differential collection is a sequence of records
    `(data, time, diff)`; what it means is the sum of the diffs per data and time. */
module Collections {

  datatype Record<D, T> = Record(data: D, time: T, diff: int)

  /** The net change of `d` at exactly time `t`. */
  ghost function Net<D, T>(s: seq<Record<D, T>>, d: D, t: T): int {
    if s == [] then 0
    else (if s[0].data == d && s[0].time == t then s[0].diff else 0) + Net(s[1..], d, t)
  }

  lemma {:induction false} NetConcat<D, T>(a: seq<Record<D, T>>, b: seq<Record<D, T>>, d: D, t: T)
    ensures Net(a + b, d, t) == Net(a, d, t) + Net(b, d, t)
  {
    if a == [] {
      assert a + b == b;
    } else {
      assert (a + b)[1..] == a[1..] + b;
      NetConcat(a[1..], b, d, t);
    }
  }

  function Negate<D, T>(s: seq<Record<D, T>>): seq<Record<D, T>> {
    seq(|s|, i requires 0 <= i < |s| => Record(s[i].data, s[i].time, -s[i].diff))
  }

  lemma {:induction false} NetNegate<D, T>(s: seq<Record<D, T>>, d: D, t: T)
    ensures Net(Negate(s), d, t) == -Net(s, d, t)
  {
    if s != [] {
      assert Negate(s)[1..] == Negate(s[1..]);
      NetNegate(s[1..], d, t);
    }
  }

  function Spread<D, T>(ds: seq<D>, t: T, diff: int): seq<Record<D, T>> {
    seq(|ds|, i requires 0 <= i < |ds| => Record(ds[i], t, diff))
  }

  /** Record-at-a-time operators (`map`, `filter`, look-ups): every record yields
      outputs that keep its time and its diff. */
  function FlatMap<A, B, T>(s: seq<Record<A, T>>, f: (A, T) -> seq<B>): seq<Record<B, T>> {
    if s == [] then []
    else Spread(f(s[0].data, s[0].time), s[0].time, s[0].diff) + FlatMap(s[1..], f)
  }

  ghost predicate Distinct<D>(ds: seq<D>) {
    forall i, j :: 0 <= i < j < |ds| ==> ds[i] != ds[j]
  }

  lemma DistinctConcat<D>(a: seq<D>, b: seq<D>)
    requires Distinct(a) && Distinct(b) && forall x :: x in a ==> x !in b
    ensures Distinct(a + b)
  {
    forall i, j | 0 <= i < j < |a + b| ensures (a + b)[i] != (a + b)[j] {
      if i < |a| <= j { assert a[i] in a && b[j - |a|] in b; }
    }
  }

  lemma {:induction false} NetSpread<D, T>(ds: seq<D>, time: T, diff: int, d: D, t: T)
    requires Distinct(ds)
    ensures Net(Spread(ds, time, diff), d, t) == if d in ds && time == t then diff else 0
  {
    if ds != [] {
      assert Spread(ds, time, diff)[1..] == Spread(ds[1..], time, diff);
      NetSpread(ds[1..], time, diff, d, t);
      if d == ds[0] { assert d !in ds[1..]; }
    }
  }

  /** If at time `t` only `a` can yield `b`, and yields it at most once, then
      the operator maps the net change of `a` to that of `b`, or drops it. */
  lemma {:induction false} NetFlatMap<A, B, T>(s: seq<Record<A, T>>, f: (A, T) -> seq<B>, a: A, b: B, t: T)
    requires forall x :: x in s ==> Distinct(f(x.data, x.time))
    requires forall x :: x in s && x.time == t && x.data != a ==> b !in f(x.data, t)
    ensures Net(FlatMap(s, f), b, t) == if b in f(a, t) then Net(s, a, t) else 0
  {
    if s != [] {
      var head := Spread(f(s[0].data, s[0].time), s[0].time, s[0].diff);
      NetConcat(head, FlatMap(s[1..], f), b, t);
      assert s[0] in s;
      NetSpread(f(s[0].data, s[0].time), s[0].time, s[0].diff, b, t);
      forall x | x in s[1..] ensures x in s {}
      NetFlatMap(s[1..], f, a, b, t);
    }
  }

  lemma {:induction false} FlatMapConcat<A, B, T>(s: seq<Record<A, T>>, r: seq<Record<A, T>>, f: (A, T) -> seq<B>)
    ensures FlatMap(s + r, f) == FlatMap(s, f) + FlatMap(r, f)
  {
    if s == [] {
      assert s + r == r;
    } else {
      assert (s + r)[1..] == s[1..] + r;
      FlatMapConcat(s[1..], r, f);
    }
  }

  lemma {:induction false} FlatMapSame<A, B, T>(s: seq<Record<A, T>>, f: (A, T) -> seq<B>, g: (A, T) -> seq<B>)
    requires forall r :: r in s ==> f(r.data, r.time) == g(r.data, r.time)
    ensures FlatMap(s, f) == FlatMap(s, g)
  {
    if s != [] {
      assert s[0] in s;
      forall x | x in s[1..] ensures x in s {}
      FlatMapSame(s[1..], f, g);
    }
  }

  /** Two operators in a row, when each yields at most one output. */
  lemma {:induction false} FlatMapCompose<A, B, C, T>(s: seq<Record<A, T>>, f: (A, T) -> seq<B>, g: (B, T) -> seq<C>,
                                                      h: (A, T) -> seq<C>)
    requires forall r :: r in s ==>
      |f(r.data, r.time)| <= 1 &&
      h(r.data, r.time) == (if f(r.data, r.time) == [] then [] else g(f(r.data, r.time)[0], r.time))
    ensures FlatMap(FlatMap(s, f), g) == FlatMap(s, h)
  {
    if s != [] {
      assert s[0] in s;
      var fs := f(s[0].data, s[0].time);
      var head := Spread(fs, s[0].time, s[0].diff);
      FlatMapConcat(head, FlatMap(s[1..], f), g);
      if fs == [] {
        assert head == [];
      } else {
        assert head == [Record(fs[0], s[0].time, s[0].diff)];
        assert head[1..] == [];
        assert FlatMap(head, g) == Spread(g(fs[0], s[0].time), s[0].time, s[0].diff) + FlatMap(head[1..], g);
      }
      forall x | x in s[1..] ensures x in s {}
      FlatMapCompose(s[1..], f, g, h);
    }
  }

  lemma {:induction false} FlatMapOrigin<A, B, T>(s: seq<Record<A, T>>, f: (A, T) -> seq<B>, r: Record<B, T>)
    requires r in FlatMap(s, f)
    ensures exists o :: o in s && r.time == o.time && r.diff == o.diff && r.data in f(o.data, o.time)
  {
    var fs := f(s[0].data, s[0].time);
    if r in Spread(fs, s[0].time, s[0].diff) {
      assert s[0] in s;
    } else {
      FlatMapOrigin(s[1..], f, r);
      var o :| o in s[1..] && r.time == o.time && r.diff == o.diff && r.data in f(o.data, o.time);
      assert o in s;
    }
  }

  /** Accumulated multiplicity of `d` over the updates at times before `n`. */
  ghost function CountBefore<D>(s: seq<Record<D, nat>>, d: D, n: nat): int {
    if s == [] then 0
    else (if s[0].data == d && s[0].time < n then s[0].diff else 0) + CountBefore(s[1..], d, n)
  }

  lemma {:induction false} CountBeforeStep<D>(s: seq<Record<D, nat>>, d: D, n: nat)
    ensures CountBefore(s, d, n + 1) == CountBefore(s, d, n) + Net(s, d, n)
  {
    if s != [] { CountBeforeStep(s[1..], d, n); }
  }

  lemma {:induction false} CountBeforeZero<D>(s: seq<Record<D, nat>>, d: D)
    ensures CountBefore(s, d, 0) == 0
  {
    if s != [] { CountBeforeZero(s[1..], d); }
  }
}
