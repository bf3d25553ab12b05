/** Prefix extension: the count / propose / validate operators of the
    worst-case optimal join, and how `extend` combines them. */
module Extenders {
  import opened Values
  import opened Bindings
  import opened Collections
  import opened AltNeuTime

  type Stream<D> = seq<Record<D, Moment>>

  /** A computation that either completes or aborts the worker. */
  datatype Outcome<+T> = Ok(value: T) | Panic

  datatype Direction = Forward(offset: nat) | Reverse(offset: nat)

  /** Which index of a two-variable binding can extend the prefix: none if the
      prefix binds both variables or neither. */
  function DirectionOf(prefix: seq<Var>, x: Var, y: Var): Option<Direction> {
    match (Position(prefix, x), Position(prefix, y))
    case (None, None) => None
    case (None, Some(offset)) => Some(Reverse(offset))
    case (Some(offset), None) => Some(Forward(offset))
    case (Some(_), Some(_)) => None
  }

  /** The antijoin extender wraps another one; a collection extender carries its
      three indices, as entered into the delta scope. */
  datatype Extender =
    | ConstantExtender(value: Value)
    | PredicateExtender(op: Predicate, direction: Direction)
    | CollectionExtender(count: Stream<Value>, propose: Stream<(Value, Value)>, validate: Stream<(Value, Value)>,
                         offset: nat)
    | AntijoinExtender(inner: Extender)

  datatype Nomination = Nomination(prefix: Tuple, count: nat, index: nat)

  datatype Extension = Extension(prefix: Tuple, value: Value)

  const MAX_COUNT: nat := 0x8000_0000
  const USIZE: nat := 0x1_0000_0000_0000_0000

  /** The value at an offset; prefixes in a pipeline always have the width of
      their variable list, so the default is never reached. */
  function At(p: Tuple, offset: nat): Value {
    if offset < |p| then p[offset] else Bool(false)
  }

  //
  // Index look-ups
  //

  function Accumulated<K(==)>(trace: Stream<K>, k: K, at: Moment): int {
    if trace == [] then 0
    else (if trace[0].data == k && Le(trace[0].time, at) then trace[0].diff else 0) + Accumulated(trace[1..], k, at)
  }

  /** The updates of an index that a look-up at a moment takes into account. */
  function Visible<K>(trace: Stream<K>, at: Moment): seq<(K, int)> {
    if trace == [] then []
    else (if Le(trace[0].time, at) then [(trace[0].data, trace[0].diff)] else []) + Visible(trace[1..], at)
  }

  /** The distinct values recorded under a key. */
  function ValuesUnder(entries: seq<((Value, Value), int)>, key: Value): (vs: seq<Value>)
    ensures Collections.Distinct(vs)
  {
    if entries == [] then []
    else
      var rest := ValuesUnder(entries[1..], key);
      var (k, v) := entries[0].0;
      if k == key && v !in rest then [v] + rest else rest
  }

  function KeepPresent(trace: Stream<(Value, Value)>, key: Value, vs: seq<Value>, at: Moment): (r: seq<Value>)
    ensures forall v :: v in r <==> v in vs && Accumulated(trace, (key, v), at) > 0
    ensures Collections.Distinct(vs) ==> Collections.Distinct(r)
  {
    if vs == [] then []
    else
      var rest := KeepPresent(trace, key, vs[1..], at);
      assert vs == [vs[0]] + vs[1..];
      if Accumulated(trace, (key, vs[0]), at) > 0 then [vs[0]] + rest else rest
  }

  /** Every value with a positive multiplicity under the key, once. */
  function Proposed(trace: Stream<(Value, Value)>, key: Value, at: Moment): (r: seq<Value>)
    ensures Collections.Distinct(r)
  {
    KeepPresent(trace, key, ValuesUnder(Visible(trace, at), key), at)
  }

  lemma {:induction false} AbsentValueAccumulatesNothing(trace: Stream<(Value, Value)>, key: Value, v: Value, at: Moment)
    requires v !in ValuesUnder(Visible(trace, at), key)
    ensures Accumulated(trace, (key, v), at) == 0
  {
    if trace != [] {
      if Le(trace[0].time, at) {
        assert Visible(trace, at)[1..] == Visible(trace[1..], at);
      } else {
        assert Visible(trace, at) == Visible(trace[1..], at);
      }
      AbsentValueAccumulatesNothing(trace[1..], key, v, at);
    }
  }

  lemma ProposedIffPresent(trace: Stream<(Value, Value)>, key: Value, v: Value, at: Moment)
    ensures v in Proposed(trace, key, at) <==> Accumulated(trace, (key, v), at) > 0
  {
    if v !in ValuesUnder(Visible(trace, at), key) { AbsentValueAccumulatesNothing(trace, key, v, at); }
  }

  //
  // The three operations of an extender
  //

  predicate Counts(x: Extender) { x.ConstantExtender? || x.CollectionExtender? }

  ghost predicate SomeCounts(xs: seq<Extender>) {
    exists j :: 0 <= j < |xs| && Counts(xs[j])
  }

  /** `count as usize`: a negative count wraps around. */
  function AsUsize(c: int): nat { c % USIZE }

  /** Counts that fit are kept; negative ones become very large. */
  lemma AsUsizeIs(c: int)
    ensures 0 <= c < 0x1_0000_0000_0000_0000 ==> AsUsize(c) == c
    ensures -0x1_0000_0000_0000_0000 < c < 0 ==> AsUsize(c) == c + 0x1_0000_0000_0000_0000
  {
    if -0x1_0000_0000_0000_0000 < c < 0 { assert c == (-1) * USIZE + (c + USIZE); }
  }

  function CountOf(x: Extender, p: Tuple, at: Moment): nat
    requires Counts(x)
  {
    match x
    case ConstantExtender(_) => 1
    case CollectionExtender(count, _, _, offset) => AsUsize(Accumulated(count, At(p, offset), at))
  }

  function CountStep(x: Extender, index: nat, n: Nomination, at: Moment): seq<Nomination>
    requires Counts(x)
  {
    match x
    case ConstantExtender(_) => [if 1 < n.count then Nomination(n.prefix, 1, index) else n]
    case CollectionExtender(_, _, _, _) =>
      var c := CountOf(x, n.prefix, at);
      if c > 0 then [if c < n.count then Nomination(n.prefix, c, index) else n] else []
  }

  function Count(x: Extender, prefixes: Stream<Nomination>, index: nat): Option<Stream<Nomination>> {
    if Counts(x) then Some(FlatMap(prefixes, (n: Nomination, at: Moment) => CountStep(x, index, n, at))) else None
  }

  function Proposals(x: Extender, p: Tuple, at: Moment): (vs: seq<Value>)
    requires Counts(x)
    ensures Collections.Distinct(vs)
  {
    match x
    case ConstantExtender(value) => [value]
    case CollectionExtender(_, propose, _, offset) => Proposed(propose, At(p, offset), at)
  }

  function ExtendBy(p: Tuple, vs: seq<Value>): seq<Extension> {
    seq(|vs|, i requires 0 <= i < |vs| => Extension(p, vs[i]))
  }

  function Propose(x: Extender, prefixes: Stream<Tuple>): Outcome<Stream<Extension>> {
    if Counts(x) then Ok(FlatMap(prefixes, (p: Tuple, at: Moment) => ExtendBy(p, Proposals(x, p, at))))
    else if prefixes == [] then Ok([])
    else Panic
  }

  predicate Accepts(x: Extender, e: Extension, at: Moment) {
    match x
    case ConstantExtender(value) => e.value == value
    case PredicateExtender(LT, Reverse(o)) => Less(At(e.prefix, o), e.value)
    case PredicateExtender(LTE, Reverse(o)) => !Less(e.value, At(e.prefix, o))
    case PredicateExtender(GT, Reverse(o)) => Less(e.value, At(e.prefix, o))
    case PredicateExtender(GTE, Reverse(o)) => !Less(At(e.prefix, o), e.value)
    case PredicateExtender(LT, Forward(o)) => Less(e.value, At(e.prefix, o))
    case PredicateExtender(LTE, Forward(o)) => !Less(At(e.prefix, o), e.value)
    case PredicateExtender(GT, Forward(o)) => Less(At(e.prefix, o), e.value)
    case PredicateExtender(GTE, Forward(o)) => !Less(e.value, At(e.prefix, o))
    case PredicateExtender(EQ, d) => e.value == At(e.prefix, d.offset)
    case PredicateExtender(NEQ, d) => e.value != At(e.prefix, d.offset)
    case CollectionExtender(_, _, validate, o) => Accumulated(validate, (At(e.prefix, o), e.value), at) > 0
    case AntijoinExtender(inner) => !Accepts(inner, e, at)
  }

  function Validate(x: Extender, extensions: Stream<Extension>): Stream<Extension> {
    if x.AntijoinExtender? then extensions + Negate(Validate(x.inner, extensions))
    else FlatMap(extensions, (e: Extension, at: Moment) => if Accepts(x, e, at) then [e] else [])
  }

  //
  // Extension
  //

  function CountUpTo(prefixes: Stream<Tuple>, xs: seq<Extender>, k: nat): Stream<Nomination>
    requires k <= |xs|
  {
    if k == 0 then FlatMap(prefixes, (p: Tuple, at: Moment) => [Nomination(p, MAX_COUNT, 0)])
    else
      var counts := CountUpTo(prefixes, xs, k - 1);
      match Count(xs[k - 1], counts, k - 1)
      case None => counts
      case Some(newCounts) => newCounts
  }

  function Part(counts: Stream<Nomination>, index: nat): Stream<Tuple> {
    FlatMap(counts, (n: Nomination, at: Moment) => if n.index == index then [n.prefix] else [])
  }

  function ValidateOthers(xs: seq<Extender>, index: nat, extensions: Stream<Extension>, k: nat): Stream<Extension>
    requires k <= |xs|
  {
    if k == 0 then extensions
    else
      var sofar := ValidateOthers(xs, index, extensions, k - 1);
      if k - 1 == index then sofar else Validate(xs[k - 1], sofar)
  }

  /** The results of the first `k` partitions. */
  function Results(counts: Stream<Nomination>, xs: seq<Extender>, k: nat): Outcome<Stream<Extension>>
    requires k <= |xs|
  {
    if k == 0 then Ok([])
    else
      match (Results(counts, xs, k - 1), Propose(xs[k - 1], Part(counts, k - 1)))
      case (Ok(before), Ok(proposed)) => Ok(before + ValidateOthers(xs, k - 1, proposed, |xs|))
      case _ => Panic
  }

  function Extend(prefixes: Stream<Tuple>, xs: seq<Extender>): Outcome<Stream<Extension>> {
    if |xs| == 0 then Panic
    else if |xs| == 1 then Propose(xs[0], prefixes)
    else Results(CountUpTo(prefixes, xs, |xs|), xs, |xs|)
  }

  //
  // What the operators compute
  //

  /** The indices of a collection extender describe one relation: validate
      accepts exactly what propose proposes, and count counts it. */
  ghost predicate Consistent(x: Extender) {
    x.CollectionExtender? ==>
      && (forall k, v, at :: Accumulated(x.validate, (k, v), at) > 0 <==> Accumulated(x.propose, (k, v), at) > 0)
      && (forall k, at :: Accumulated(x.count, k, at) == |Proposed(x.propose, k, at)| < MAX_COUNT)
  }

  lemma AcceptsIffProposes(x: Extender, e: Extension, at: Moment)
    requires Counts(x) && Consistent(x)
    ensures Accepts(x, e, at) <==> e.value in Proposals(x, e.prefix, at)
  {
    if x.CollectionExtender? { ProposedIffPresent(x.propose, At(e.prefix, x.offset), e.value, at); }
  }

  lemma {:induction false} NetValidate(x: Extender, s: Stream<Extension>, e: Extension, at: Moment)
    ensures Net(Validate(x, s), e, at) == if Accepts(x, e, at) then Net(s, e, at) else 0
    decreases x
  {
    if x.AntijoinExtender? {
      NetValidate(x.inner, s, e, at);
      NetNegate(Validate(x.inner, s), e, at);
      NetConcat(s, Negate(Validate(x.inner, s)), e, at);
    } else {
      NetFlatMap(s, (e: Extension, at: Moment) => if Accepts(x, e, at) then [e] else [], e, e, at);
    }
  }

  lemma NetPropose(x: Extender, s: Stream<Tuple>, e: Extension, at: Moment)
    requires Counts(x)
    ensures Propose(x, s).Ok?
    ensures Net(Propose(x, s).value, e, at) ==
      if e.value in Proposals(x, e.prefix, at) then Net(s, e.prefix, at) else 0
  {
    var f := (p: Tuple, at: Moment) => ExtendBy(p, Proposals(x, p, at));
    NetFlatMap(s, f, e.prefix, e, at);
    var vs := Proposals(x, e.prefix, at);
    if e.value in vs {
      var i :| 0 <= i < |vs| && vs[i] == e.value;
      assert ExtendBy(e.prefix, vs)[i] == e;
    }
  }

  /** All of the first `k` extenders but one accept. */
  predicate OthersAccept(xs: seq<Extender>, index: nat, k: nat, e: Extension, at: Moment)
    requires k <= |xs|
  {
    forall j :: 0 <= j < k && j != index ==> Accepts(xs[j], e, at)
  }

  lemma {:induction false} NetValidateOthers(xs: seq<Extender>, index: nat, s: Stream<Extension>, k: nat,
                                             e: Extension, at: Moment)
    requires k <= |xs|
    ensures Net(ValidateOthers(xs, index, s, k), e, at) == if OthersAccept(xs, index, k, e, at) then Net(s, e, at) else 0
  {
    if k != 0 {
      NetValidateOthers(xs, index, s, k - 1, e, at);
      NetValidate(xs[k - 1], ValidateOthers(xs, index, s, k - 1), e, at);
      assert OthersAccept(xs, index, k, e, at) <==> OthersAccept(xs, index, k - 1, e, at) && (k - 1 == index || Accepts(xs[k - 1], e, at));
    }
  }

  /** What counting makes of a single prefix. */
  function Nominated(xs: seq<Extender>, k: nat, p: Tuple, at: Moment): (r: seq<Nomination>)
    requires k <= |xs|
    ensures |r| <= 1
  {
    if k == 0 then [Nomination(p, MAX_COUNT, 0)]
    else
      var r := Nominated(xs, k - 1, p, at);
      if r == [] || !Counts(xs[k - 1]) then r else CountStep(xs[k - 1], k - 1, r[0], at)
  }

  lemma CountingOneMore(s: Stream<Tuple>, xs: seq<Extender>, k: nat)
    requires k < |xs| && CountUpTo(s, xs, k) == FlatMap(s, (p: Tuple, at: Moment) => Nominated(xs, k, p, at))
    ensures CountUpTo(s, xs, k + 1) == FlatMap(s, (p: Tuple, at: Moment) => Nominated(xs, k + 1, p, at))
  {
    var before := (p: Tuple, at: Moment) => Nominated(xs, k, p, at);
    var after := (p: Tuple, at: Moment) => Nominated(xs, k + 1, p, at);
    if Counts(xs[k]) {
      var step := (n: Nomination, at: Moment) => CountStep(xs[k], k, n, at);
      FlatMapCompose(s, before, step, after);
      assert Count(xs[k], CountUpTo(s, xs, k), k) == Some(FlatMap(CountUpTo(s, xs, k), step));
    } else {
      FlatMapSame(s, before, after);
    }
  }

  lemma {:induction false} CountingIsPerPrefix(s: Stream<Tuple>, xs: seq<Extender>, k: nat)
    requires k <= |xs|
    ensures CountUpTo(s, xs, k) == FlatMap(s, (p: Tuple, at: Moment) => Nominated(xs, k, p, at))
  {
    if k == 0 {
      FlatMapSame(s, (p: Tuple, at: Moment) => [Nomination(p, MAX_COUNT, 0)], (p: Tuple, at: Moment) => Nominated(xs, k, p, at));
    } else {
      CountingIsPerPrefix(s, xs, k - 1);
      CountingOneMore(s, xs, k - 1);
    }
  }

  /** Nomination: a prefix is dropped only if some extender has nothing to
      propose for it; otherwise the nominee has the least count of all. */
  lemma {:induction false} NomineeIsMinimal(xs: seq<Extender>, k: nat, p: Tuple, at: Moment)
    requires k <= |xs|
    requires forall j :: 0 <= j < k && Counts(xs[j]) ==> CountOf(xs[j], p, at) < MAX_COUNT
    ensures Nominated(xs, k, p, at) == [] <==>
      exists j :: 0 <= j < k && Counts(xs[j]) && CountOf(xs[j], p, at) == 0
    ensures Nominated(xs, k, p, at) != [] ==>
      var n := Nominated(xs, k, p, at)[0];
      && n.prefix == p
      && (forall j :: 0 <= j < k && Counts(xs[j]) ==> n.count <= CountOf(xs[j], p, at))
      && (if exists j :: 0 <= j < k && Counts(xs[j])
          then n.index < k && Counts(xs[n.index]) && n.count == CountOf(xs[n.index], p, at)
          else n == Nomination(p, 0x8000_0000, 0))
  {
    if k != 0 { NomineeIsMinimal(xs, k - 1, p, at); }
  }

  lemma PartIsPerPrefix(s: Stream<Tuple>, xs: seq<Extender>, index: nat)
    ensures Part(CountUpTo(s, xs, |xs|), index) ==
      FlatMap(s, (p: Tuple, at: Moment) =>
        var r := Nominated(xs, |xs|, p, at); if r != [] && r[0].index == index then [r[0].prefix] else [])
  {
    CountingIsPerPrefix(s, xs, |xs|);
    var f := (p: Tuple, at: Moment) => Nominated(xs, |xs|, p, at);
    var g := (n: Nomination, at: Moment) => if n.index == index then [n.prefix] else [];
    var h := (p: Tuple, at: Moment) =>
        var r := Nominated(xs, |xs|, p, at); if r != [] && r[0].index == index then [r[0].prefix] else [];
    FlatMapCompose(s, f, g, h);
  }

  ghost predicate BoundedCounts(xs: seq<Extender>) {
    forall j, p, at :: 0 <= j < |xs| && Counts(xs[j]) ==> CountOf(xs[j], p, at) < MAX_COUNT
  }

  /** Whether the nominee of a prefix is one of the first `k` extenders. */
  ghost predicate NomineeBelow(xs: seq<Extender>, p: Tuple, at: Moment, k: nat) {
    var r := Nominated(xs, |xs|, p, at);
    r != [] && r[0].index < k
  }

  lemma NetPart(s: Stream<Tuple>, xs: seq<Extender>, index: nat, p: Tuple, at: Moment)
    requires BoundedCounts(xs)
    ensures Net(Part(CountUpTo(s, xs, |xs|), index), p, at) ==
      if NomineeBelow(xs, p, at, index + 1) && !NomineeBelow(xs, p, at, index) then Net(s, p, at) else 0
  {
    PartIsPerPrefix(s, xs, index);
    var h := (p: Tuple, at: Moment) =>
        var r := Nominated(xs, |xs|, p, at); if r != [] && r[0].index == index then [r[0].prefix] else [];
    forall x | x in s ensures forall y :: y in h(x.data, x.time) ==> y == x.data {
      NomineeIsMinimal(xs, |xs|, x.data, x.time);
    }
    NomineeIsMinimal(xs, |xs|, p, at);
    NetFlatMap(s, h, p, p, at);
  }

  /** Only a counting extender is ever asked to propose. */
  lemma PartOfPredicateIsEmpty(s: Stream<Tuple>, xs: seq<Extender>, index: nat)
    requires BoundedCounts(xs) && index < |xs| && !Counts(xs[index])
    requires SomeCounts(xs)
    ensures Part(CountUpTo(s, xs, |xs|), index) == []
  {
    PartIsPerPrefix(s, xs, index);
    var h := (p: Tuple, at: Moment) =>
        var r := Nominated(xs, |xs|, p, at); if r != [] && r[0].index == index then [r[0].prefix] else [];
    forall x | x in s ensures h(x.data, x.time) == [] {
      NomineeIsMinimal(xs, |xs|, x.data, x.time);
    }
    FlatMapNone(s, h);
  }

  lemma {:induction false} FlatMapNone<A, B>(s: Stream<A>, f: (A, Moment) -> seq<B>)
    requires forall r :: r in s ==> f(r.data, r.time) == []
    ensures FlatMap(s, f) == []
  {
    if s != [] {
      assert s[0] in s;
      forall r | r in s[1..] ensures r in s {}
      FlatMapNone(s[1..], f);
    }
  }

  ghost predicate AllAccept(xs: seq<Extender>, e: Extension, at: Moment) {
    forall j :: 0 <= j < |xs| ==> Accepts(xs[j], e, at)
  }

  /** What an extender stands for: the values it proposes, or, for one that never
      proposes, those it accepts. */
  predicate Allows(x: Extender, e: Extension, at: Moment) {
    if Counts(x) then e.value in Proposals(x, e.prefix, at) else Accepts(x, e, at)
  }

  ghost predicate AllAllow(xs: seq<Extender>, e: Extension, at: Moment) {
    forall j :: 0 <= j < |xs| ==> Allows(xs[j], e, at)
  }

  lemma AllAcceptIffAllow(xs: seq<Extender>, e: Extension, at: Moment)
    requires AllConsistent(xs)
    ensures AllAccept(xs, e, at) <==> AllAllow(xs, e, at)
  {
    forall j | 0 <= j < |xs| ensures Accepts(xs[j], e, at) <==> Allows(xs[j], e, at) {
      assert Consistent(xs[j]);
      if Counts(xs[j]) { AcceptsIffProposes(xs[j], e, at); }
    }
  }

  ghost predicate AllConsistent(xs: seq<Extender>) {
    forall j :: 0 <= j < |xs| ==> Consistent(xs[j])
  }

  lemma ConsistentCounts(x: Extender, p: Tuple, at: Moment)
    requires Counts(x) && Consistent(x)
    ensures |Proposals(x, p, at)| == CountOf(x, p, at) < MAX_COUNT
  {
    if x.CollectionExtender? { AsUsizeIs(Accumulated(x.count, At(p, x.offset), at)); }
  }

  lemma ConsistentCountsAreBounded(xs: seq<Extender>)
    requires AllConsistent(xs)
    ensures BoundedCounts(xs)
  {
    forall j, p, at | 0 <= j < |xs| && Counts(xs[j]) ensures CountOf(xs[j], p, at) < MAX_COUNT {
      ConsistentCounts(xs[j], p, at);
    }
  }

  /** A prefix dropped while counting has no extension that all extenders accept. */
  lemma DroppedPrefixHasNoExtension(xs: seq<Extender>, p: Tuple, v: Value, at: Moment)
    requires AllConsistent(xs)
    requires Nominated(xs, |xs|, p, at) == []
    ensures !AllAccept(xs, Extension(p, v), at)
  {
    ConsistentCountsAreBounded(xs);
    NomineeIsMinimal(xs, |xs|, p, at);
    var j :| 0 <= j < |xs| && Counts(xs[j]) && CountOf(xs[j], p, at) == 0;
    ConsistentCounts(xs[j], p, at);
    AcceptsIffProposes(xs[j], Extension(p, v), at);
  }

  /** The nominee proposes the extension and all others accept it. */
  predicate Elected(xs: seq<Extender>, e: Extension, at: Moment) {
    var r := Nominated(xs, |xs|, e.prefix, at);
    && r != [] && r[0].index < |xs| && Counts(xs[r[0].index])
    && e.value in Proposals(xs[r[0].index], e.prefix, at)
    && forall j :: 0 <= j < |xs| && j != r[0].index ==> Accepts(xs[j], e, at)
  }

  /** Only the partition of the elected nominee contributes. */
  ghost predicate Contributes(counts: Stream<Nomination>, xs: seq<Extender>, k: nat, e: Extension, at: Moment, elected: nat, amount: int)
    requires k < |xs|
  {
    var proposed := Propose(xs[k], Part(counts, k));
    proposed.Ok? && Net(ValidateOthers(xs, k, proposed.value, |xs|), e, at) == if k == elected then amount else 0
  }

  /** The nominee of an elected extension; none otherwise. */
  function ElectedIndex(xs: seq<Extender>, e: Extension, at: Moment): nat {
    if Elected(xs, e, at) then Nominated(xs, |xs|, e.prefix, at)[0].index else |xs|
  }

  lemma NetPartition(s: Stream<Tuple>, xs: seq<Extender>, k: nat, e: Extension, at: Moment)
    requires BoundedCounts(xs) && SomeCounts(xs) && k < |xs|
    ensures Contributes(CountUpTo(s, xs, |xs|), xs, k, e, at, ElectedIndex(xs, e, at), Net(s, e.prefix, at))
  {
    var part := Part(CountUpTo(s, xs, |xs|), k);
    var proposed := Propose(xs[k], part);
    NetPart(s, xs, k, e.prefix, at);
    if Counts(xs[k]) {
      NetPropose(xs[k], part, e, at);
    } else {
      PartOfPredicateIsEmpty(s, xs, k);
    }
    NetValidateOthers(xs, k, proposed.value, |xs|, e, at);
  }

  lemma ResultsOneMore(counts: Stream<Nomination>, xs: seq<Extender>, k: nat)
    requires k < |xs| && Results(counts, xs, k).Ok? && Propose(xs[k], Part(counts, k)).Ok?
    ensures Results(counts, xs, k + 1) ==
      Ok(Results(counts, xs, k).value + ValidateOthers(xs, k, Propose(xs[k], Part(counts, k)).value, |xs|))
  {
  }

  ghost predicate Nets(out: Outcome<Stream<Extension>>, e: Extension, at: Moment, amount: int) {
    out.Ok? && Net(out.value, e, at) == amount
  }

  lemma NetResultsOneMore(counts: Stream<Nomination>, xs: seq<Extender>, k: nat, e: Extension, at: Moment, elected: nat, amount: int)
    requires k < |xs| && Contributes(counts, xs, k, e, at, elected, amount)
    requires Nets(Results(counts, xs, k), e, at, if elected < k then amount else 0)
    ensures Nets(Results(counts, xs, k + 1), e, at, if elected < k + 1 then amount else 0)
  {
    ResultsOneMore(counts, xs, k);
    NetConcat(Results(counts, xs, k).value, ValidateOthers(xs, k, Propose(xs[k], Part(counts, k)).value, |xs|), e, at);
  }

  lemma {:induction false} NetResults(counts: Stream<Nomination>, xs: seq<Extender>, k: nat, e: Extension, at: Moment, elected: nat, amount: int)
    requires k <= |xs| && forall j :: 0 <= j < |xs| ==> Contributes(counts, xs, j, e, at, elected, amount)
    ensures Nets(Results(counts, xs, k), e, at, if elected < k then amount else 0)
  {
    if k != 0 {
      NetResults(counts, xs, k - 1, e, at, elected, amount);
      NetResultsOneMore(counts, xs, k - 1, e, at, elected, amount);
    } else {
      assert Results(counts, xs, 0) == Ok([]);
    }
  }

  /** With several extenders, whatever their indices hold: an extension is
      delivered, with the diff of its prefix, exactly if the nominee proposes it
      and all others accept it. */
  lemma ExtendElects(s: Stream<Tuple>, xs: seq<Extender>, e: Extension, at: Moment)
    requires |xs| > 1 && BoundedCounts(xs) && SomeCounts(xs)
    ensures Extend(s, xs).Ok?
    ensures Net(Extend(s, xs).value, e, at) == if Elected(xs, e, at) then Net(s, e.prefix, at) else 0
  {
    var counts := CountUpTo(s, xs, |xs|);
    forall j | 0 <= j < |xs| ensures Contributes(counts, xs, j, e, at, ElectedIndex(xs, e, at), Net(s, e.prefix, at)) {
      NetPartition(s, xs, j, e, at);
    }
    NetResults(counts, xs, |xs|, e, at, ElectedIndex(xs, e, at), Net(s, e.prefix, at));
  }

  /** Under the extender contract that does not depend on the nominee. */
  lemma ElectedIffAllowed(xs: seq<Extender>, e: Extension, at: Moment)
    requires AllConsistent(xs) && SomeCounts(xs)
    ensures Elected(xs, e, at) <==> AllAllow(xs, e, at)
  {
    ConsistentCountsAreBounded(xs);
    NomineeIsMinimal(xs, |xs|, e.prefix, at);
    AllAcceptIffAllow(xs, e, at);
    var r := Nominated(xs, |xs|, e.prefix, at);
    if r == [] {
      DroppedPrefixHasNoExtension(xs, e.prefix, e.value, at);
      assert e == Extension(e.prefix, e.value);
    } else {
      assert Consistent(xs[r[0].index]);
      AcceptsIffProposes(xs[r[0].index], e, at);
    }
  }

  /** `extend` yields, for each prefix, exactly the values all extenders allow,
      once net and with the prefix's diff, whichever extender was nominated. An
      extender on its own only proposes, so its other indices do not matter. */
  lemma ExtendIsExact(s: Stream<Tuple>, xs: seq<Extender>, e: Extension, at: Moment)
    requires |xs| > 1 ==> AllConsistent(xs)
    requires SomeCounts(xs)
    ensures Extend(s, xs).Ok?
    ensures Net(Extend(s, xs).value, e, at) == if AllAllow(xs, e, at) then Net(s, e.prefix, at) else 0
  {
    if |xs| == 1 {
      NetPropose(xs[0], s, e, at);
    } else {
      ConsistentCountsAreBounded(xs);
      ExtendElects(s, xs, e, at);
      ElectedIffAllowed(xs, e, at);
    }
  }

  lemma {:induction false} NobodyIsNominated(xs: seq<Extender>, k: nat, p: Tuple, at: Moment)
    requires k <= |xs| && !SomeCounts(xs)
    ensures Nominated(xs, k, p, at) == [Nomination(p, MAX_COUNT, 0)]
  {
    if k != 0 {
      NobodyIsNominated(xs, k - 1, p, at);
      assert !Counts(xs[k - 1]);
    }
  }

  lemma {:induction false} ResultsPanic(counts: Stream<Nomination>, xs: seq<Extender>, k: nat)
    requires 0 < k <= |xs| && !Counts(xs[0]) && Part(counts, 0) != []
    ensures Results(counts, xs, k).Panic?
  {
    if k > 1 { ResultsPanic(counts, xs, k - 1); }
  }

  lemma {:induction false} ResultsOfNothing(counts: Stream<Nomination>, xs: seq<Extender>, k: nat)
    requires k <= |xs| && counts == [] && !SomeCounts(xs)
    ensures Results(counts, xs, k).Ok?
  {
    if k != 0 {
      ResultsOfNothing(counts, xs, k - 1);
      assert !Counts(xs[k - 1]) && Part(counts, k - 1) == [];
    }
  }

  lemma UnproposedPanicsIff(s: Stream<Tuple>, xs: seq<Extender>)
    requires |xs| > 1 && !SomeCounts(xs)
    ensures Extend(s, xs).Panic? <==> s != []
  {
    var counts := CountUpTo(s, xs, |xs|);
    var f := (p: Tuple, at: Moment) => Nominated(xs, |xs|, p, at);
    CountingIsPerPrefix(s, xs, |xs|);
    assert !Counts(xs[0]);
    if s == [] {
      assert counts == [];
      ResultsOfNothing(counts, xs, |xs|);
    } else {
      NobodyIsNominated(xs, |xs|, s[0].data, s[0].time);
      assert counts[0] == Record(Nomination(s[0].data, MAX_COUNT, 0), s[0].time, s[0].diff);
      var g := (n: Nomination, at: Moment) => if n.index == 0 then [n.prefix] else [];
      assert FlatMap(counts, g) == Spread(g(counts[0].data, counts[0].time), counts[0].time, counts[0].diff) + FlatMap(counts[1..], g);
      assert Part(counts, 0) == FlatMap(counts, g);
      ResultsPanic(counts, xs, |xs|);
    }
  }

  /** `extend` panics exactly if it is given no extender, or prefixes but no
      extender that can propose. */
  lemma ExtendPanicsIff(s: Stream<Tuple>, xs: seq<Extender>)
    requires BoundedCounts(xs)
    ensures Extend(s, xs).Panic? <==> xs == [] || (s != [] && forall j :: 0 <= j < |xs| ==> xs[j].PredicateExtender? || xs[j].AntijoinExtender?)
  {
    assert SomeCounts(xs) <==> !forall j :: 0 <= j < |xs| ==> xs[j].PredicateExtender? || xs[j].AntijoinExtender?;
    if |xs| == 1 {
      assert SomeCounts(xs) <==> Counts(xs[0]);
    } else if |xs| > 1 {
      if SomeCounts(xs) {
        ExtendElects(s, xs, Extension([], Bool(false)), ToInner(0));
      } else {
        UnproposedPanicsIff(s, xs);
      }
    }
  }
}
