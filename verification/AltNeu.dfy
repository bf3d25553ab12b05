/** Timestamps of the delta-query scope: every time of the outer scope splits
    into an earlier `alt` and a later `neu` moment. */
module AltNeuTime {

  datatype AltNeu<T> = AltNeu(time: T, neu: bool)

  /** A lattice as a value: timely's `PartialOrder` plus differential's `Lattice`. */
  datatype Lattice<!T> = Lattice(le: (T, T) -> bool, join: (T, T) -> T, meet: (T, T) -> T, minimum: T)

  ghost predicate IsPartialOrder<T(!new)>(le: (T, T) -> bool) {
    && (forall a :: le(a, a))
    && (forall a, b :: le(a, b) && le(b, a) ==> a == b)
    && (forall a, b, c :: le(a, b) && le(b, c) ==> le(a, c))
  }

  /** `j` is the least upper bound of `a` and `b`. */
  ghost predicate IsJoin<T(!new)>(le: (T, T) -> bool, a: T, b: T, j: T) {
    && le(a, j) && le(b, j)
    && (forall u :: le(a, u) && le(b, u) ==> le(j, u))
  }

  /** `m` is the greatest lower bound of `a` and `b`. */
  ghost predicate IsMeet<T(!new)>(le: (T, T) -> bool, a: T, b: T, m: T) {
    && le(m, a) && le(m, b)
    && (forall u :: le(u, a) && le(u, b) ==> le(u, m))
  }

  ghost predicate IsLattice<T(!new)>(l: Lattice<T>) {
    && IsPartialOrder(l.le)
    && (forall a, b :: IsJoin(l.le, a, b, l.join(a, b)))
    && (forall a, b :: IsMeet(l.le, a, b, l.meet(a, b)))
    && (forall a :: l.le(l.minimum, a))
  }

  predicate LessEqual<T(==)>(le: (T, T) -> bool, a: AltNeu<T>, b: AltNeu<T>) {
    if a.time == b.time then a.neu ==> b.neu else le(a.time, b.time)
  }

  function Join<T(==)>(join: (T, T) -> T, a: AltNeu<T>, b: AltNeu<T>): AltNeu<T> {
    var time := join(a.time, b.time);
    AltNeu(time, (time == a.time && a.neu) || (time == b.time && b.neu))
  }

  function Meet<T(==)>(meet: (T, T) -> T, a: AltNeu<T>, b: AltNeu<T>): AltNeu<T> {
    var time := meet(a.time, b.time);
    AltNeu(time, (time == a.time ==> a.neu) && (time == b.time ==> b.neu))
  }

  function ToInner<T>(t: T): AltNeu<T> { AltNeu(t, false) }

  function ToOuter<T>(t: AltNeu<T>): T { t.time }

  function AltNeuLattice<T(==)>(l: Lattice<T>): Lattice<AltNeu<T>> {
    Lattice((a: AltNeu<T>, b: AltNeu<T>) => LessEqual(l.le, a, b),
            (a: AltNeu<T>, b: AltNeu<T>) => Join(l.join, a, b),
            (a: AltNeu<T>, b: AltNeu<T>) => Meet(l.meet, a, b),
            ToInner(l.minimum))
  }

  lemma LessEqualIsPartialOrder<T(!new)>(le: (T, T) -> bool)
    requires IsPartialOrder(le)
    ensures IsPartialOrder((a: AltNeu<T>, b: AltNeu<T>) => LessEqual(le, a, b))
  {
    var inner := (a: AltNeu<T>, b: AltNeu<T>) => LessEqual(le, a, b);
    forall a, b, c | inner(a, b) && inner(b, c) ensures inner(a, c) {
      assert a.time == b.time || le(a.time, b.time);
      assert b.time == c.time || le(b.time, c.time);
    }
  }

  lemma JoinIsLeastUpperBound<T(!new)>(l: Lattice<T>, a: AltNeu<T>, b: AltNeu<T>)
    requires IsLattice(l)
    ensures IsJoin(AltNeuLattice(l).le, a, b, Join(l.join, a, b))
  {
    var time := l.join(a.time, b.time);
    assert IsJoin(l.le, a.time, b.time, time);
    var j := Join(l.join, a, b);
    forall u | LessEqual(l.le, a, u) && LessEqual(l.le, b, u) ensures LessEqual(l.le, j, u) {
      assert l.le(a.time, a.time) && l.le(b.time, b.time);
      assert l.le(a.time, u.time) && l.le(b.time, u.time);
      assert l.le(time, u.time);
    }
  }

  lemma MeetIsGreatestLowerBound<T(!new)>(l: Lattice<T>, a: AltNeu<T>, b: AltNeu<T>)
    requires IsLattice(l)
    ensures IsMeet(AltNeuLattice(l).le, a, b, Meet(l.meet, a, b))
  {
    var time := l.meet(a.time, b.time);
    assert IsMeet(l.le, a.time, b.time, time);
    var m := Meet(l.meet, a, b);
    forall u | LessEqual(l.le, u, a) && LessEqual(l.le, u, b) ensures LessEqual(l.le, u, m) {
      assert l.le(a.time, a.time) && l.le(b.time, b.time);
      assert l.le(u.time, a.time) && l.le(u.time, b.time);
      assert l.le(u.time, time);
    }
  }

  /** Splitting every moment of a lattice into alt and neu gives a lattice again,
      whether or not the inner times are comparable. */
  lemma AltNeuIsLattice<T(!new)>(l: Lattice<T>)
    requires IsLattice(l)
    ensures IsLattice(AltNeuLattice(l))
  {
    var o := AltNeuLattice(l);
    LessEqualIsPartialOrder(l.le);
    assert IsPartialOrder(o.le);
    forall a, b ensures IsJoin(o.le, a, b, o.join(a, b)) { JoinIsLeastUpperBound(l, a, b); }
    forall a, b ensures IsMeet(o.le, a, b, o.meet(a, b)) { MeetIsGreatestLowerBound(l, a, b); }
  }

  /** Entering the scope is the earliest moment that leaves it at the same time:
      `ToInner` is the lower adjoint of `ToOuter`. */
  lemma EnterIsEarliest<T(!new)>(le: (T, T) -> bool, t: T, m: AltNeu<T>)
    requires IsPartialOrder(le)
    ensures LessEqual(le, ToInner(t), m) <==> le(t, ToOuter(m))
  {
  }

  /** Transaction times: the total order of `u64`. */
  type Moment = AltNeu<nat>

  predicate NatLe(a: nat, b: nat) { a <= b }

  predicate Le(a: Moment, b: Moment) { LessEqual(NatLe, a, b) }

  /** What a request at `(t, alt)` sees of an index entered as `neu` or `alt`:
      everything before `t`, and the updates at `t` itself only from `alt` indices. */
  lemma AltSeesNeuStrictlyBefore(u: nat, neu: bool, t: nat)
    ensures Le(AltNeu(u, neu), ToInner(t)) <==> u < (if neu then t else t + 1)
  {
  }
}
