/** Running one delta pipeline: start from the changes of an attribute binding,
    then extend by one variable after the other. */
module Hector {
  import opened Values
  import opened Bindings
  import opened Collections
  import opened AltNeuTime
  import opened Extenders
  import opened Indices
  import opened PlanOrders
  import opened Semantics
  import opened Pipelines

  datatype Query = Query(variables: seq<Var>, bindings: seq<Binding>)

  /** The updates binding `j` contributes to the pipeline of `source` at time `t`:
      through `t` for earlier bindings, strictly before `t` for later ones. */
  function View(source: nat, j: nat, t: nat): nat {
    if j >= source then t else t + 1
  }

  ghost predicate Provided(b: Binding, store: Store, hs: Histories) {
    b.Attribute? ==>
      && b.aid in store && b.aid in hs
      && Indexed(store[b.aid], hs[b.aid]) && SetValued(hs[b.aid]) && Bounded(hs[b.aid])
  }

  ghost predicate AllProvided(bindings: seq<Binding>, store: Store, hs: Histories) {
    forall j :: 0 <= j < |bindings| ==> Provided(bindings[j], store, hs)
  }

  lemma PredicateAccepts(op: Predicate, x: Var, y: Var, prefix: seq<Var>, target: Var, a: Assignment, t: nat)
    requires BinaryPredicate(op, x, y).CanExtend(prefix, target)
    ensures DirectionOf(prefix, x, y).Some?
    ensures Accepts(PredicateExtender(op, DirectionOf(prefix, x, y).value), Extension(Projected(a, prefix), Lookup(a, target)), ToInner(t))
      <==> Compare(op, Lookup(a, y), Lookup(a, x))
  {
  }

  lemma AttributeAllows(b: Binding, neu: bool, prefix: seq<Var>, target: Var, store: Store, hs: Histories, a: Assignment, t: nat)
    requires b.Attribute? && b.CanExtend(prefix, target) && Available(b, store) && Provided(b, store, hs)
    ensures Allows(ExtenderOf(b, neu, prefix, target, store), Extension(Projected(a, prefix), Lookup(a, target)), ToInner(t))
      <==> Holds(b, a, hs, if neu then t else t + 1)
  {
    ExtendableHasDirection(b, prefix, target);
    var offset := DirectionOf(prefix, b.e, b.v).value.offset;
    ExtendersSeePresence(store[b.aid], hs[b.aid], neu, offset, Extension(Projected(a, prefix), Lookup(a, target)), t);
  }

  /** An extender allows a value for the target exactly when its binding holds in
      the pipeline's view. */
  lemma ExtenderAllows(b: Binding, neu: bool, prefix: seq<Var>, target: Var, store: Store, hs: Histories, a: Assignment, t: nat)
    requires b.CanExtend(prefix, target) && Simple(b) && Available(b, store) && Provided(b, store, hs)
    ensures Allows(ExtenderOf(b, neu, prefix, target, store), Extension(Projected(a, prefix), Lookup(a, target)), ToInner(t))
      <==> Holds(b, a, hs, if neu then t else t + 1)
  {
    match b
    case Not(inner) =>
      ExtenderAllows(inner, neu, prefix, target, store, hs, a, t);
      var x, e := ExtenderOf(inner, neu, prefix, target, store), Extension(Projected(a, prefix), Lookup(a, target));
      assert Allows(x, e, ToInner(t)) <==> Accepts(x, e, ToInner(t));
    case Constant(_, _) =>
    case BinaryPredicate(op, x, y) => PredicateAccepts(op, x, y, prefix, target, a, t);
    case Attribute(_, _, _) => AttributeAllows(b, neu, prefix, target, store, hs, a, t);
  }

  ghost predicate StepHolds(source: nat, bindings: seq<Binding>, prefix: seq<Var>, target: Var, hs: Histories,
                            a: Assignment, t: nat, k: nat)
    requires k <= |bindings|
  {
    forall j :: 0 <= j < k && j != source && bindings[j].CanExtend(prefix, target) ==>
      Holds(bindings[j], a, hs, View(source, j, t))
  }

  lemma AllAllowAppend(xs: seq<Extender>, x: Extender, e: Extension, at: Moment)
    ensures AllAllow(xs + [x], e, at) <==> AllAllow(xs, e, at) && Allows(x, e, at)
  {
    var all := xs + [x];
    assert all[|xs|] == x && forall j :: 0 <= j < |xs| ==> all[j] == xs[j];
  }

  lemma {:induction false} StepAllows(source: nat, bindings: seq<Binding>, prefix: seq<Var>, target: Var, store: Store,
                                       hs: Histories, a: Assignment, t: nat, k: nat)
    requires AllSimple(bindings, store) && AllProvided(bindings, store, hs) && k <= |bindings|
    ensures AllAllow(ExtendersFor(source, bindings, prefix, target, store, k),
                      Extension(Projected(a, prefix), Lookup(a, target)), ToInner(t))
      <==> StepHolds(source, bindings, prefix, target, hs, a, t, k)
  {
    if k != 0 {
      StepAllows(source, bindings, prefix, target, store, hs, a, t, k - 1);
      var before := ExtendersFor(source, bindings, prefix, target, store, k - 1);
      var e := Extension(Projected(a, prefix), Lookup(a, target));
      if k - 1 != source && bindings[k - 1].CanExtend(prefix, target) {
        ExtenderAllows(bindings[k - 1], k - 1 >= source, prefix, target, store, hs, a, t);
        AllAllowAppend(before, ExtenderOf(bindings[k - 1], k - 1 >= source, prefix, target, store), e, ToInner(t));
      } else {
        assert ExtendersFor(source, bindings, prefix, target, store, k) == before;
      }
    }
  }

  predicate Participant(source: nat, bindings: seq<Binding>, prefix: seq<Var>, target: Var, j: nat)
    requires j < |bindings|
  {
    j != source && bindings[j].CanExtend(prefix, target)
  }

  /** Two different bindings take part in the same step. */
  predicate TakePart(source: nat, bindings: seq<Binding>, prefix: seq<Var>, target: Var, i: nat, j: nat)
    requires i < |bindings| && j < |bindings|
  {
    i != j && Participant(source, bindings, prefix, target, i) && Participant(source, bindings, prefix, target, j)
  }

  /** An attribute that is extended in reverse can be validated in reverse. */
  ghost predicate ReverseServed(b: Binding, target: Var, store: Store, hs: Histories) {
    b.Attribute? && b.e == target && b.aid in store && b.aid in hs ==> ValidatesReverse(store[b.aid], hs[b.aid])
  }

  /** If several bindings take part in a step, those that are extended in reverse
      can be validated in reverse. One that takes part on its own only proposes. */
  ghost predicate StepValidates(source: nat, bindings: seq<Binding>, prefix: seq<Var>, target: Var, store: Store, hs: Histories) {
    forall i, j :: 0 <= i < |bindings| && 0 <= j < |bindings| && TakePart(source, bindings, prefix, target, i, j) ==>
      ReverseServed(bindings[i], target, store, hs)
  }

  lemma ServedIsConsistent(b: Binding, neu: bool, prefix: seq<Var>, target: Var, store: Store, hs: Histories)
    requires b.CanExtend(prefix, target) && Simple(b) && Available(b, store) && Provided(b, store, hs)
    requires ReverseServed(b, target, store, hs)
    ensures Consistent(ExtenderOf(b, neu, prefix, target, store))
  {
    ExtendableHasDirection(b, prefix, target);
    if b.Attribute? {
      ServedExtendersAreConsistent(store[b.aid], hs[b.aid], neu, DirectionOf(prefix, b.e, b.v).value.offset);
    }
  }

  lemma {:induction false} StepIsConsistent(source: nat, bindings: seq<Binding>, prefix: seq<Var>, target: Var, store: Store,
                                            hs: Histories, k: nat)
    requires AllSimple(bindings, store) && AllProvided(bindings, store, hs) && k <= |bindings|
    requires forall j :: 0 <= j < |bindings| && Participant(source, bindings, prefix, target, j) ==> ReverseServed(bindings[j], target, store, hs)
    ensures AllConsistent(ExtendersFor(source, bindings, prefix, target, store, k))
  {
    if k != 0 {
      StepIsConsistent(source, bindings, prefix, target, store, hs, k - 1);
      if Participant(source, bindings, prefix, target, k - 1) {
        ServedIsConsistent(bindings[k - 1], k - 1 >= source, prefix, target, store, hs);
      }
    }
  }

  lemma {:induction false} SoleParticipant(source: nat, bindings: seq<Binding>, prefix: seq<Var>, target: Var, store: Store, i: nat, k: nat)
    requires AllSimple(bindings, store) && k <= |bindings|
    requires forall j :: 0 <= j < |bindings| && Participant(source, bindings, prefix, target, j) ==> j == i
    ensures |ExtendersFor(source, bindings, prefix, target, store, k)| <= if i < k then 1 else 0
  {
    if k != 0 {
      SoleParticipant(source, bindings, prefix, target, store, i, k - 1);
      assert Participant(source, bindings, prefix, target, k - 1) ==> k - 1 == i;
    }
  }

  /** With more than one extender, every participant has company. */
  lemma ManyAreConsistent(source: nat, bindings: seq<Binding>, prefix: seq<Var>, target: Var, store: Store, hs: Histories)
    requires AllSimple(bindings, store) && AllProvided(bindings, store, hs)
    requires StepValidates(source, bindings, prefix, target, store, hs)
    ensures var xs := ExtendersFor(source, bindings, prefix, target, store, |bindings|); |xs| > 1 ==> AllConsistent(xs)
  {
    if |ExtendersFor(source, bindings, prefix, target, store, |bindings|)| > 1 {
      forall i | 0 <= i < |bindings| && Participant(source, bindings, prefix, target, i)
        ensures ReverseServed(bindings[i], target, store, hs)
      {
        if forall j :: 0 <= j < |bindings| && Participant(source, bindings, prefix, target, j) ==> j == i {
          SoleParticipant(source, bindings, prefix, target, store, i, |bindings|);
        } else {
          var j :| 0 <= j < |bindings| && Participant(source, bindings, prefix, target, j) && j != i;
          assert TakePart(source, bindings, prefix, target, i, j);
        }
      }
      StepIsConsistent(source, bindings, prefix, target, store, hs, |bindings|);
    }
  }

  predicate Proposes(b: Binding) { b.Attribute? || b.Constant? }

  lemma {:induction false} StepHasProposer(source: nat, bindings: seq<Binding>, prefix: seq<Var>, target: Var, store: Store, j: nat, k: nat)
    requires AllSimple(bindings, store) && j < k <= |bindings|
    requires j != source && Proposes(bindings[j]) && bindings[j].CanExtend(prefix, target)
    ensures SomeCounts(ExtendersFor(source, bindings, prefix, target, store, k))
  {
    var xs := ExtendersFor(source, bindings, prefix, target, store, k);
    if j == k - 1 {
      ExtendableHasDirection(bindings[j], prefix, target);
      assert Counts(xs[|xs| - 1]);
    } else {
      StepHasProposer(source, bindings, prefix, target, store, j, k - 1);
      var before := ExtendersFor(source, bindings, prefix, target, store, k - 1);
      var i :| 0 <= i < |before| && Counts(before[i]);
      assert xs[i] == before[i];
      assert Counts(xs[i]);
    }
  }

  //
  // The invariant of a pipeline
  //

  /** All non-source bindings whose variables are bound by the prefix hold. */
  ghost predicate Enforced(source: nat, bindings: seq<Binding>, prefix: seq<Var>, a: Assignment, hs: Histories, t: nat) {
    forall j :: 0 <= j < |bindings| && j != source && Within(bindings[j], prefix) ==>
      Holds(bindings[j], a, hs, View(source, j, t))
  }

  lemma NewlyWithin(b: Binding, prefix: seq<Var>, target: Var)
    requires b.Proper() && target !in prefix
    ensures Within(b, prefix + [target]) <==> Within(b, prefix) || b.CanExtend(prefix, target)
    ensures !(Within(b, prefix) && b.CanExtend(prefix, target))
  {
    ReadyIffLastVariable(b, prefix, target);
  }

  lemma EnforcedStep(source: nat, bindings: seq<Binding>, prefix: seq<Var>, target: Var, a: Assignment, hs: Histories, t: nat)
    requires AllProper(bindings) && target !in prefix
    ensures Enforced(source, bindings, prefix + [target], a, hs, t) <==>
      Enforced(source, bindings, prefix, a, hs, t) && StepHolds(source, bindings, prefix, target, hs, a, t, |bindings|)
  {
    forall j | 0 <= j < |bindings|
      ensures Within(bindings[j], prefix + [target]) <==> Within(bindings[j], prefix) || bindings[j].CanExtend(prefix, target)
    {
      NewlyWithin(bindings[j], prefix, target);
    }
  }

  ghost function SourceChange(source: nat, bindings: seq<Binding>, a: Assignment, hs: Histories, t: nat): int
    requires source < |bindings| && bindings[source].Attribute?
  {
    var b := bindings[source];
    Net(HistoryOf(hs, b.aid), (Lookup(a, b.e), Lookup(a, b.v)), t)
  }

  /** The stream carries, per tuple, the change of the source at every time at
      which all bindings enforced so far hold. */
  ghost predicate Carries(source: nat, bindings: seq<Binding>, prefix: seq<Var>, hs: Histories, s: Stream<Tuple>)
    requires source < |bindings| && bindings[source].Attribute?
  {
    && ShapedTuples(s, |prefix|)
    && (forall a: Assignment, t: nat :: Net(s, Projected(a, prefix), ToInner(t)) ==
          if Enforced(source, bindings, prefix, a, hs, t) then SourceChange(source, bindings, a, hs, t) else 0)
  }

  function AppendValue(s: Stream<Extension>): Stream<Tuple> {
    FlatMap(s, (e: Extension, at: Moment) => [e.prefix + [e.value]])
  }

  lemma NetAppendValue(s: Stream<Extension>, e: Extension, at: Moment)
    requires forall r :: r in s ==> |r.data.prefix| == |e.prefix|
    ensures Net(AppendValue(s), e.prefix + [e.value], at) == Net(s, e, at)
  {
    var f := (e: Extension, at: Moment) => [e.prefix + [e.value]];
    var b := e.prefix + [e.value];
    forall x | x in s && x.data != e ensures b !in f(x.data, at) {
      var c := x.data.prefix + [x.data.value];
      assert c[..|c| - 1] == x.data.prefix && b[..|b| - 1] == e.prefix;
      assert c[|c| - 1] == x.data.value && b[|b| - 1] == e.value;
    }
    NetFlatMap(s, f, e, b, at);
  }

  //
  // Shape: times and widths of records survive extension
  //

  ghost predicate Shaped(s: Stream<Extension>, width: nat) {
    forall r :: r in s ==> !r.time.neu && |r.data.prefix| == width
  }

  lemma {:induction false} ValidateKeepsShape(x: Extender, s: Stream<Extension>, width: nat)
    requires Shaped(s, width)
    ensures Shaped(Validate(x, s), width)
    decreases x
  {
    if x.AntijoinExtender? {
      ValidateKeepsShape(x.inner, s, width);
    } else {
      var f := (e: Extension, at: Moment) => if Accepts(x, e, at) then [e] else [];
      forall r | r in FlatMap(s, f) ensures !r.time.neu && |r.data.prefix| == width { FlatMapOrigin(s, f, r); }
    }
  }

  lemma {:induction false} ValidateOthersKeepsShape(xs: seq<Extender>, index: nat, s: Stream<Extension>, k: nat, width: nat)
    requires k <= |xs| && Shaped(s, width)
    ensures Shaped(ValidateOthers(xs, index, s, k), width)
  {
    if k != 0 {
      ValidateOthersKeepsShape(xs, index, s, k - 1, width);
      ValidateKeepsShape(xs[k - 1], ValidateOthers(xs, index, s, k - 1), width);
    }
  }

  lemma ProposeKeepsShape(x: Extender, s: Stream<Tuple>, width: nat)
    requires Propose(x, s).Ok?
    requires ShapedTuples(s, width)
    ensures Shaped(Propose(x, s).value, width)
  {
    if Counts(x) {
      var f := (p: Tuple, at: Moment) => ExtendBy(p, Proposals(x, p, at));
      forall r | r in FlatMap(s, f) ensures !r.time.neu && |r.data.prefix| == width { FlatMapOrigin(s, f, r); }
    }
  }

  ghost predicate ShapedTuples(s: Stream<Tuple>, width: nat) {
    forall r :: r in s ==> !r.time.neu && |r.data| == width
  }

  lemma PartKeepsShape(s: Stream<Tuple>, xs: seq<Extender>, index: nat, width: nat)
    requires BoundedCounts(xs) && ShapedTuples(s, width)
    ensures ShapedTuples(Part(CountUpTo(s, xs, |xs|), index), width)
  {
    PartIsPerPrefix(s, xs, index);
    var h := (p: Tuple, at: Moment) =>
        var r := Nominated(xs, |xs|, p, at); if r != [] && r[0].index == index then [r[0].prefix] else [];
    forall r | r in FlatMap(s, h) ensures !r.time.neu && |r.data| == width {
      FlatMapOrigin(s, h, r);
      var o :| o in s && r.time == o.time && r.diff == o.diff && r.data in h(o.data, o.time);
      NomineeIsMinimal(xs, |xs|, o.data, o.time);
    }
  }

  lemma ShapedConcat(a: Stream<Extension>, b: Stream<Extension>, width: nat)
    requires Shaped(a, width) && Shaped(b, width)
    ensures Shaped(a + b, width)
  {
  }

  lemma PartitionKeepsShape(part: Stream<Tuple>, xs: seq<Extender>, index: nat, width: nat)
    requires index < |xs| && Propose(xs[index], part).Ok? && ShapedTuples(part, width)
    ensures Shaped(ValidateOthers(xs, index, Propose(xs[index], part).value, |xs|), width)
  {
    ProposeKeepsShape(xs[index], part, width);
    ValidateOthersKeepsShape(xs, index, Propose(xs[index], part).value, |xs|, width);
  }

  lemma {:induction false} ResultsKeepShape(counts: Stream<Nomination>, xs: seq<Extender>, k: nat, width: nat)
    requires k <= |xs| && Results(counts, xs, k).Ok?
    requires forall i: nat :: ShapedTuples(Part(counts, i), width)
    ensures Shaped(Results(counts, xs, k).value, width)
  {
    if k != 0 {
      ResultsKeepShape(counts, xs, k - 1, width);
      var part := Part(counts, k - 1);
      PartitionKeepsShape(part, xs, k - 1, width);
      ShapedConcat(Results(counts, xs, k - 1).value, ValidateOthers(xs, k - 1, Propose(xs[k - 1], part).value, |xs|), width);
    }
  }

  lemma ExtendKeepsShape(s: Stream<Tuple>, xs: seq<Extender>, width: nat)
    requires (|xs| > 1 ==> AllConsistent(xs)) && Extend(s, xs).Ok?
    requires ShapedTuples(s, width)
    ensures Shaped(Extend(s, xs).value, width)
  {
    if |xs| == 1 {
      ProposeKeepsShape(xs[0], s, width);
    } else {
      ConsistentCountsAreBounded(xs);
      var counts := CountUpTo(s, xs, |xs|);
      forall i: nat ensures ShapedTuples(Part(counts, i), width) { PartKeepsShape(s, xs, i, width); }
      ResultsKeepShape(counts, xs, |xs|, width);
    }
  }

  lemma AppendKeepsShape(s: Stream<Extension>, width: nat)
    requires Shaped(s, width)
    ensures ShapedTuples(AppendValue(s), width + 1)
  {
    var f := (e: Extension, at: Moment) => [e.prefix + [e.value]];
    forall r | r in FlatMap(s, f) ensures !r.time.neu && |r.data| == width + 1 { FlatMapOrigin(s, f, r); }
  }

  /** A step multiplies the stream by the bindings that it enforces. */
  lemma StepNet(source: nat, bindings: seq<Binding>, prefix: seq<Var>, target: Var, store: Store, hs: Histories, s: Stream<Tuple>,
                xs: seq<Extender>, a: Assignment, t: nat)
    requires AllSimple(bindings, store) && AllProvided(bindings, store, hs)
    requires xs == ExtendersFor(source, bindings, prefix, target, store, |bindings|)
    requires (|xs| > 1 ==> AllConsistent(xs)) && SomeCounts(xs)
    requires Extend(s, xs).Ok? && Shaped(Extend(s, xs).value, |prefix|)
    ensures Net(AppendValue(Extend(s, xs).value), Projected(a, prefix + [target]), ToInner(t)) ==
      if StepHolds(source, bindings, prefix, target, hs, a, t, |bindings|) then Net(s, Projected(a, prefix), ToInner(t)) else 0
  {
    var e := Extension(Projected(a, prefix), Lookup(a, target));
    assert Projected(a, prefix + [target]) == e.prefix + [e.value];
    NetAppendValue(Extend(s, xs).value, e, ToInner(t));
    ExtendIsExact(s, xs, e, ToInner(t));
    StepAllows(source, bindings, prefix, target, store, hs, a, t, |bindings|);
  }

  /** Some binding can propose values for the target of the step. */
  ghost predicate CanPropose(source: nat, bindings: seq<Binding>, prefix: seq<Var>, target: Var) {
    exists j :: 0 <= j < |bindings| && j != source && Proposes(bindings[j]) && bindings[j].CanExtend(prefix, target)
  }

  /** One extension step of a pipeline keeps its invariant. */
  lemma StepCarries(source: nat, bindings: seq<Binding>, prefix: seq<Var>, target: Var, store: Store, hs: Histories, s: Stream<Tuple>)
    requires source < |bindings| && bindings[source].Attribute?
    requires AllProper(bindings) && AllSimple(bindings, store) && AllProvided(bindings, store, hs)
    requires target !in prefix && CanPropose(source, bindings, prefix, target)
    requires StepValidates(source, bindings, prefix, target, store, hs)
    requires Carries(source, bindings, prefix, hs, s)
    ensures var extended := Extend(s, ExtendersFor(source, bindings, prefix, target, store, |bindings|));
      extended.Ok? && Carries(source, bindings, prefix + [target], hs, AppendValue(extended.value))
  {
    var xs := ExtendersFor(source, bindings, prefix, target, store, |bindings|);
    ManyAreConsistent(source, bindings, prefix, target, store, hs);
    var j :| 0 <= j < |bindings| && j != source && Proposes(bindings[j]) && bindings[j].CanExtend(prefix, target);
    StepHasProposer(source, bindings, prefix, target, store, j, |bindings|);
    ExtendIsExact(s, xs, Extension([], Bool(false)), ToInner(0));
    ExtendKeepsShape(s, xs, |prefix|);
    AppendKeepsShape(Extend(s, xs).value, |prefix|);
    forall a: Assignment, t: nat
      ensures Net(AppendValue(Extend(s, xs).value), Projected(a, prefix + [target]), ToInner(t)) ==
        if Enforced(source, bindings, prefix + [target], a, hs, t) then SourceChange(source, bindings, a, hs, t) else 0
    {
      StepNet(source, bindings, prefix, target, store, hs, s, xs, a, t);
      EnforcedStep(source, bindings, prefix, target, a, hs, t);
    }
  }

  //
  // Sources
  //

  lemma {:induction false} NetEnter<K>(h: seq<Record<K, nat>>, k: K, t: nat)
    ensures Net(Enter(h, false), k, ToInner(t)) == Net(h, k, t)
  {
    if h != [] {
      assert Enter(h, false)[1..] == Enter(h[1..], false);
      NetEnter(h[1..], k, t);
    }
  }

  function SourceTuples(propose: History, keep: ((Value, Value)) -> bool, swap: bool): Stream<Tuple> {
    FlatMap(Enter(propose, false), (p: (Value, Value), at: Moment) =>
      if keep(p) then [if swap then [p.1, p.0] else [p.0, p.1]] else [])
  }

  lemma NetSourceTuples(propose: History, keep: ((Value, Value)) -> bool, swap: bool, x: Value, y: Value, t: nat)
    ensures ShapedTuples(SourceTuples(propose, keep, swap), 2)
    ensures Net(SourceTuples(propose, keep, swap), if swap then [y, x] else [x, y], ToInner(t)) ==
      if keep((x, y)) then Net(propose, (x, y), t) else 0
  {
    var f := (p: (Value, Value), at: Moment) => if keep(p) then [if swap then [p.1, p.0] else [p.0, p.1]] else [];
    var s := Enter(propose, false);
    forall r | r in FlatMap(s, f) ensures !r.time.neu && |r.data| == 2 { FlatMapOrigin(s, f, r); }
    var tuple := if swap then [y, x] else [x, y];
    forall r | r in s && r.data != (x, y) ensures tuple !in f(r.data, ToInner(t)) {
      var c := if swap then [r.data.1, r.data.0] else [r.data.0, r.data.1];
      assert c[0] == tuple[0] && c[1] == tuple[1] ==> r.data == (x, y);
    }
    NetFlatMap(s, f, (x, y), tuple, ToInner(t));
    NetEnter(propose, (x, y), t);
  }

  /** The source has no conflict, or a single one with a constant. */
  predicate ConflictsResolvable(source: nat, bindings: seq<Binding>)
    requires source < |bindings| && bindings[source].Attribute?
  {
    var conflicts := SourceConflicts(source, bindings);
    |conflicts| == 0 || (|conflicts| == 1 && conflicts[0].Constant?)
  }

  /** The bindings within the source variables are its conflicts. */
  lemma WithinSource(source: nat, bindings: seq<Binding>, prefix: seq<Var>, j: nat)
    requires source < |bindings| && bindings[source].Attribute? && AllProper(bindings)
    requires prefix == [bindings[source].e, bindings[source].v] || prefix == [bindings[source].v, bindings[source].e]
    requires j < |bindings| && j != source
    ensures Within(bindings[j], prefix) <==> bindings[j] in SourceConflicts(source, bindings)
  {
    var e, v := bindings[source].e, bindings[source].v;
    assert bindings[source].Proper() && bindings[j].Proper();
    ConflictsAre(source, bindings, 0);
    ConflictIffWithin(bindings[j], e, v);
    assert Within(bindings[j], prefix) <==> Within(bindings[j], [e, v]) by {
      assert forall x :: x in prefix <==> x in [e, v];
    }
  }

  lemma ConflictVariable(source: nat, bindings: seq<Binding>)
    requires source < |bindings| && bindings[source].Attribute? && AllProper(bindings)
    requires ConflictsResolvable(source, bindings) && SourceConflicts(source, bindings) != []
    ensures var conflict := SourceConflicts(source, bindings)[0];
      && (conflict.variable == bindings[source].e || conflict.variable == bindings[source].v)
      && exists j :: 0 <= j < |bindings| && j != source && bindings[j] == conflict
  {
    ConflictsAre(source, bindings, 0);
    var conflict := SourceConflicts(source, bindings)[0];
    assert conflict in SourceConflicts(source, bindings);
    var j :| 0 <= j < |bindings| && j != source && bindings[j] == conflict;
    WithinSource(source, bindings, [bindings[source].e, bindings[source].v], j);
    assert conflict.Variables()[0] == conflict.variable;
  }

  lemma SourceEnforces(source: nat, bindings: seq<Binding>, prefix: seq<Var>, a: Assignment, hs: Histories, t: nat)
    requires source < |bindings| && bindings[source].Attribute? && AllProper(bindings)
    requires ConflictsResolvable(source, bindings)
    requires prefix == [bindings[source].e, bindings[source].v] || prefix == [bindings[source].v, bindings[source].e]
    ensures var conflicts := SourceConflicts(source, bindings);
      Enforced(source, bindings, prefix, a, hs, t) <==> conflicts == [] || Lookup(a, conflicts[0].variable) == conflicts[0].value
  {
    var conflicts := SourceConflicts(source, bindings);
    forall j | 0 <= j < |bindings| && j != source ensures Within(bindings[j], prefix) <==> bindings[j] in conflicts {
      WithinSource(source, bindings, prefix, j);
    }
    if conflicts != [] {
      ConflictVariable(source, bindings);
      assert forall b :: b in conflicts <==> b == conflicts[0];
    }
  }

  /** The two-variable prefixes a pipeline starts from. */
  method StartPipeline(source: nat, bindings: seq<Binding>, store: Store, ghost hs: Histories)
    returns (prefix: seq<Var>, s: Stream<Tuple>)
    requires source < |bindings| && bindings[source].Attribute? && AllProper(bindings)
    requires AllProvided(bindings, store, hs)
    requires ConflictsResolvable(source, bindings)
    ensures prefix == [bindings[source].e, bindings[source].v] || prefix == [bindings[source].v, bindings[source].e]
    ensures Carries(source, bindings, prefix, hs, s)
  {
    var delta := bindings[source];
    assert Provided(delta, store, hs);
    var propose := store[delta.aid].forwardPropose;
    var conflicts := SourceConflicts(source, bindings);
    var keep: ((Value, Value)) -> bool, swap;
    if conflicts != [] {
      ConflictVariable(source, bindings);
      var variable, value := conflicts[0].variable, conflicts[0].value;
      prefix := [variable];
      match DirectionOf(prefix, delta.e, delta.v).value
      case Forward(_) =>
        prefix := prefix + [delta.v];
        keep, swap := (p: (Value, Value)) => p.0 == value, false;
      case Reverse(_) =>
        prefix := prefix + [delta.e];
        keep, swap := (p: (Value, Value)) => p.1 == value, true;
    } else {
      prefix := [delta.e, delta.v];
      keep, swap := (p: (Value, Value)) => true, false;
    }
    s := SourceTuples(propose, keep, swap);
    NetSourceTuples(propose, keep, swap, Bool(false), Bool(false), 0);
    forall a: Assignment, t: nat
      ensures Net(s, Projected(a, prefix), ToInner(t)) ==
        if Enforced(source, bindings, prefix, a, hs, t) then SourceChange(source, bindings, a, hs, t) else 0
    {
      var x, y := Lookup(a, delta.e), Lookup(a, delta.v);
      NetSourceTuples(propose, keep, swap, x, y, t);
      SourceEnforces(source, bindings, prefix, a, hs, t);
      assert Projected(a, prefix) == if swap then [y, x] else [x, y];
    }
  }

  //
  // Running a pipeline
  //

  /** At every step of an order some binding can propose values. */
  ghost predicate StepsPropose(source: nat, bindings: seq<Binding>, order: seq<Var>) {
    forall k :: 2 <= k < |order| ==> CanPropose(source, bindings, order[..k], order[k])
  }

  /** At every step of the planned order some binding can propose values. */
  ghost predicate Proposable(source: nat, bindings: seq<Binding>)
    requires source < |bindings| && bindings[source].Attribute?
  {
    forall order :: IsPlanned(source, bindings, order) ==> StepsPropose(source, bindings, order)
  }

  /** Every step of an order can validate what it has to. */
  ghost predicate StepsValidate(source: nat, bindings: seq<Binding>, order: seq<Var>, store: Store, hs: Histories) {
    forall k :: 2 <= k < |order| ==> StepValidates(source, bindings, order[..k], order[k], store, hs)
  }

  ghost predicate Validatable(source: nat, bindings: seq<Binding>, store: Store, hs: Histories)
    requires source < |bindings| && bindings[source].Attribute?
  {
    forall order :: IsPlanned(source, bindings, order) ==> StepsValidate(source, bindings, order, store, hs)
  }

  /** Indices of swapped pairs can validate everything. */
  lemma ServedIsValidatable(source: nat, bindings: seq<Binding>, store: Store, hs: Histories)
    requires source < |bindings| && bindings[source].Attribute?
    requires forall j :: 0 <= j < |bindings| && bindings[j].Attribute? && bindings[j].aid in store && bindings[j].aid in hs ==>
      ValidatesReverse(store[bindings[j].aid], hs[bindings[j].aid])
    ensures Validatable(source, bindings, store, hs)
  {
  }

  /** If all two-variable bindings are attributes, every step can propose. */
  lemma AttributesPropose(source: nat, bindings: seq<Binding>)
    requires source < |bindings| && bindings[source].Attribute? && bindings[source].Proper()
    requires forall j :: 0 <= j < |bindings| ==> Proposes(bindings[j]) || |bindings[j].Variables()| == 1
    ensures Proposable(source, bindings)
  {
    forall order, k | IsPlanned(source, bindings, order) && 2 <= k < |order|
      ensures CanPropose(source, bindings, order[..k], order[k])
    {
      var n :| StopsAfter(source, bindings, n) && order == AfterRounds(source, bindings, n).prefix;
      RoundsAreSound(source, bindings, n);
      assert Introduced(bindings, source, order[..k], order[k]);
      IntroductionProposes(source, bindings, order[..k], order[k]);
    }
  }

  lemma IntroductionProposes(source: nat, bindings: seq<Binding>, prefix: seq<Var>, x: Var)
    requires forall j :: 0 <= j < |bindings| ==> Proposes(bindings[j]) || |bindings[j].Variables()| == 1
    requires Introduced(bindings, source, prefix, x)
    ensures CanPropose(source, bindings, prefix, x)
  {
    var j :| 0 <= j < |bindings| && j != source && Introduces(bindings[j], prefix, x);
    ReadyIsUnbound(bindings[j], prefix);
    var y :| y in bindings[j].Variables() && y in prefix;
    assert |bindings[j].Variables()| != 1;
  }

  lemma ReadySameMembers(b: Binding, p: seq<Var>, q: seq<Var>)
    requires forall x :: x in p <==> x in q
    ensures b.ReadyToExtend(p) == b.ReadyToExtend(q)
  {
    if b.Not? { ReadySameMembers(b.binding, p, q); }
  }

  ghost predicate SameMembers(p: seq<Var>, q: seq<Var>) {
    forall x :: x in p <==> x in q
  }

  /** The variables bound before target `i`: the first two come with the source. */
  function Taken(order: seq<Var>, i: nat): seq<Var>
    requires i <= |order| && 2 <= |order|
  {
    order[..if i <= 2 then 2 else i]
  }

  /** A pipeline may start with the two source variables swapped; what can
      propose does not depend on their order. */
  lemma NextProposes(source: nat, bindings: seq<Binding>, order: seq<Var>, prefix: seq<Var>, i: nat)
    requires StepsPropose(source, bindings, order)
    requires 2 <= i < |order| && SameMembers(prefix, order[..i])
    ensures CanPropose(source, bindings, prefix, order[i])
  {
    var j :| 0 <= j < |bindings| && j != source && Proposes(bindings[j]) && bindings[j].CanExtend(order[..i], order[i]);
    ReadySameMembers(bindings[j], order[..i], prefix);
  }

  lemma NextValidates(source: nat, bindings: seq<Binding>, order: seq<Var>, prefix: seq<Var>, i: nat, store: Store, hs: Histories)
    requires StepsValidate(source, bindings, order, store, hs)
    requires 2 <= i < |order| && SameMembers(prefix, order[..i])
    ensures StepValidates(source, bindings, prefix, order[i], store, hs)
  {
    assert StepValidates(source, bindings, order[..i], order[i], store, hs);
    forall j | 0 <= j < |bindings|
      ensures Participant(source, bindings, prefix, order[i], j) == Participant(source, bindings, order[..i], order[i], j)
    {
      ReadySameMembers(bindings[j], order[..i], prefix);
    }
    forall j, k | 0 <= j < |bindings| && 0 <= k < |bindings| && TakePart(source, bindings, prefix, order[i], j, k)
      ensures ReverseServed(bindings[j], order[i], store, hs)
    {
      assert TakePart(source, bindings, order[..i], order[i], j, k);
    }
  }

  lemma NextTarget(order: seq<Var>, prefix: seq<Var>, i: nat)
    requires 2 <= |order| && Collections.Distinct(order)
    requires i < |order| && SameMembers(prefix, Taken(order, i))
    ensures order[i] in prefix <==> i < 2
    ensures SameMembers(if i < 2 then prefix else prefix + [order[i]], Taken(order, i + 1))
  {
    if i < 2 {
      assert order[..2][i] == order[i];
    } else {
      assert order[..i + 1] == order[..i] + [order[i]];
    }
  }

  /** One extension step. */
  method ExtendPipeline(source: nat, bindings: seq<Binding>, prefix: seq<Var>, target: Var, store: Store, ghost hs: Histories,
                        s: Stream<Tuple>) returns (extended: Outcome<Stream<Tuple>>)
    requires source < |bindings| && bindings[source].Attribute?
    requires AllProper(bindings) && AllSimple(bindings, store) && AllProvided(bindings, store, hs)
    requires target !in prefix && CanPropose(source, bindings, prefix, target)
    requires StepValidates(source, bindings, prefix, target, store, hs)
    requires Carries(source, bindings, prefix, hs, s)
    ensures extended.Ok? && Carries(source, bindings, prefix + [target], hs, extended.value)
  {
    var extenders := CollectExtenders(source, bindings, prefix, target, store);
    StepCarries(source, bindings, prefix, target, store, hs, s);
    match Extend(s, extenders)
    case Ok(extensions) => extended := Ok(AppendValue(extensions));
    case Panic => extended := Panic;
  }

  /** Where a pipeline stands before target `i` of its order. */
  ghost predicate Grown(source: nat, bindings: seq<Binding>, order: seq<Var>, hs: Histories, i: nat, prefix: seq<Var>, s: Stream<Tuple>)
    requires source < |bindings| && bindings[source].Attribute? && i <= |order| && 2 <= |order|
  {
    Carries(source, bindings, prefix, hs, s) && Collections.Distinct(prefix) && SameMembers(prefix, Taken(order, i))
  }

  ghost predicate Growable(source: nat, bindings: seq<Binding>, order: seq<Var>, store: Store, hs: Histories)
    requires source < |bindings| && bindings[source].Attribute?
  {
    && AllProper(bindings) && AllSimple(bindings, store) && AllProvided(bindings, store, hs)
    && ValidOrder(bindings, source, order) && 2 <= |order|
    && StepsPropose(source, bindings, order) && StepsValidate(source, bindings, order, store, hs)
  }

  /** Extends a pipeline by one target, unless it is already bound. */
  method GrowOnce(source: nat, bindings: seq<Binding>, order: seq<Var>, i: nat, store: Store, ghost hs: Histories, before: seq<Var>, s0: Stream<Tuple>)
    returns (prefix: seq<Var>, s: Outcome<Stream<Tuple>>)
    requires source < |bindings| && bindings[source].Attribute? && Growable(source, bindings, order, store, hs)
    requires i < |order| && Grown(source, bindings, order, hs, i, before, s0)
    ensures s.Ok? && Grown(source, bindings, order, hs, i + 1, prefix, s.value)
  {
    prefix, s := before, Ok(s0);
    NextTarget(order, prefix, i);
    if i >= 2 {
      NextProposes(source, bindings, order, prefix, i);
      NextValidates(source, bindings, order, prefix, i, store, hs);
    }
    if Position(prefix, order[i]).None? {
      s := ExtendPipeline(source, bindings, prefix, order[i], store, hs, s0);
      prefix := prefix + [order[i]];
    }
  }

  /** Grows the source prefixes variable by variable along the chosen order. */
  method GrowPipeline(source: nat, bindings: seq<Binding>, order: seq<Var>, store: Store, ghost hs: Histories,
                      start: seq<Var>, s0: Stream<Tuple>)
    returns (prefix: seq<Var>, s: Outcome<Stream<Tuple>>)
    requires source < |bindings| && bindings[source].Attribute? && Growable(source, bindings, order, store, hs)
    requires start == [bindings[source].e, bindings[source].v] || start == [bindings[source].v, bindings[source].e]
    requires Carries(source, bindings, start, hs, s0)
    ensures s.Ok? && Carries(source, bindings, prefix, hs, s.value)
    ensures Collections.Distinct(prefix) && SameMembers(prefix, order)
  {
    prefix, s := start, Ok(s0);
    assert bindings[source].Proper();
    assert order[..2] == bindings[source].Variables();
    for i := 0 to |order|
      invariant s.Ok? && Grown(source, bindings, order, hs, i, prefix, s.value)
    {
      prefix, s := GrowOnce(source, bindings, order, i, store, hs, prefix, s.value);
    }
    assert order[..|order|] == order;
  }

  //
  // Every binding is enforced exactly once
  //

  /** The steps among the first `k` at which a binding takes part. */
  ghost function StepsOf(b: Binding, order: seq<Var>, k: nat): set<nat>
    requires k <= |order|
  {
    set i | 2 <= i < k && b.CanExtend(order[..i], order[i])
  }

  lemma StepsGrow(b: Binding, order: seq<Var>, k: nat)
    requires 2 <= k < |order|
    ensures StepsOf(b, order, k + 1) == StepsOf(b, order, k) + if b.CanExtend(order[..k], order[k]) then {k} else {}
    ensures k !in StepsOf(b, order, k)
  {
  }

  lemma WithinGrows(b: Binding, order: seq<Var>, k: nat)
    requires b.Proper() && Collections.Distinct(order) && 2 <= k < |order|
    ensures Within(b, order[..2]) ==> Within(b, order[..k])
    ensures Within(b, order[..k + 1]) <==> Within(b, order[..k]) || b.CanExtend(order[..k], order[k])
    ensures !(Within(b, order[..k]) && b.CanExtend(order[..k], order[k]))
  {
    assert order[..k + 1] == order[..k] + [order[k]];
    NewlyWithin(b, order[..k], order[k]);
    if Within(b, order[..2]) {
      forall x | x in b.Variables() ensures x in order[..k] {
        var i :| 0 <= i < 2 && order[..2][i] == x;
        assert order[..k][i] == x;
      }
    }
  }

  lemma {:induction false} StepsUpTo(b: Binding, order: seq<Var>, k: nat)
    requires b.Proper() && Collections.Distinct(order) && 2 <= k <= |order|
    ensures if Within(b, order[..k]) && !Within(b, order[..2]) then |StepsOf(b, order, k)| == 1 else StepsOf(b, order, k) == {}
  {
    if k > 2 {
      StepsUpTo(b, order, k - 1);
      WithinGrows(b, order, k - 1);
      StepsGrow(b, order, k - 1);
    }
  }

  /** In a pipeline every binding other than the source takes part in exactly one
      step, unless it conflicts with the source and takes part in none. */
  lemma EnforcedExactlyOnce(source: nat, bindings: seq<Binding>, order: seq<Var>, j: nat)
    requires source < |bindings| && j < |bindings| && j != source
    requires bindings[source].Attribute? && AllProper(bindings) && ValidOrder(bindings, source, order)
    ensures |StepsOf(bindings[j], order, |order|)| ==
      if InConflict(bindings[j], bindings[source].e, bindings[source].v) then 0 else 1
  {
    var b := bindings[j];
    assert order[..2] == [bindings[source].e, bindings[source].v];
    assert bindings[source].Proper();
    ConflictIffWithin(b, bindings[source].e, bindings[source].v);
    forall x | x in b.Variables() ensures x in order[..|order|] {
      AllVariablesAre(bindings, x);
    }
    StepsUpTo(b, order, |order|);
  }

  //
  // Results
  //

  function Leave<D>(s: Stream<D>): seq<Record<D, nat>> {
    seq(|s|, i requires 0 <= i < |s| => Record(s[i].data, ToOuter(s[i].time), s[i].diff))
  }

  lemma {:induction false} NetLeave<D>(s: Stream<D>, d: D, t: nat)
    requires forall r :: r in s ==> !r.time.neu
    ensures Net(Leave(s), d, t) == Net(s, d, ToInner(t))
  {
    if s != [] {
      assert s[0] in s;
      assert Leave(s)[1..] == Leave(s[1..]);
      forall r | r in s[1..] ensures r in s {}
      NetLeave(s[1..], d, t);
    }
  }

  /** The assignment a tuple stands for, and the tuples an assignment projects to. */
  function Zip(prefix: seq<Var>, tuple: Tuple): Assignment {
    map x | x in prefix :: Column(prefix, tuple, x)
  }

  function Assigned(prefix: seq<Var>, s: seq<Record<Tuple, nat>>): seq<Record<Assignment, nat>> {
    seq(|s|, i requires 0 <= i < |s| => Record(Zip(prefix, s[i].data), s[i].time, s[i].diff))
  }

  function ProjectAll(s: seq<Record<Assignment, nat>>, xs: seq<Var>): seq<Record<Tuple, nat>> {
    seq(|s|, i requires 0 <= i < |s| => Record(Projected(s[i].data, xs), s[i].time, s[i].diff))
  }

  lemma ZipIsInverse(prefix: seq<Var>, tuple: Tuple, a: Assignment)
    requires Collections.Distinct(prefix) && |tuple| == |prefix|
    ensures Projected(Zip(prefix, tuple), prefix) == tuple
    ensures a.Keys == ToSet(prefix) ==> Zip(prefix, Projected(a, prefix)) == a
  {
    forall i | 0 <= i < |prefix| ensures Lookup(Zip(prefix, tuple), prefix[i]) == tuple[i] {
      assert prefix[i] in prefix;
      var offset := Position(prefix, prefix[i]).value;
      assert offset == i;
    }
  }

  lemma {:induction false} NetAssigned(prefix: seq<Var>, s: seq<Record<Tuple, nat>>, a: Assignment, t: nat)
    requires Collections.Distinct(prefix) && a.Keys == ToSet(prefix)
    requires forall r :: r in s ==> |r.data| == |prefix|
    ensures Net(Assigned(prefix, s), a, t) == Net(s, Projected(a, prefix), t)
  {
    if s != [] {
      assert s[0] in s;
      assert Assigned(prefix, s)[1..] == Assigned(prefix, s[1..]);
      forall r | r in s[1..] ensures r in s {}
      NetAssigned(prefix, s[1..], a, t);
      ZipIsInverse(prefix, s[0].data, a);
    }
  }

  ghost predicate OthersHold(source: nat, bindings: seq<Binding>, a: Assignment, hs: Histories, t: nat) {
    forall j :: 0 <= j < |bindings| && j != source ==> Holds(bindings[j], a, hs, View(source, j, t))
  }

  /** What the pipeline of `source` contributes: per complete assignment and
      time, the change of the source if all other bindings hold in its view. */
  ghost predicate Delivers(source: nat, bindings: seq<Binding>, hs: Histories, rows: seq<Record<Assignment, nat>>)
    requires source < |bindings| && bindings[source].Attribute?
  {
    && (forall r :: r in rows ==> r.data.Keys == ToSet(AllVariables(bindings)))
    && (forall a: Assignment, t: nat :: a.Keys == ToSet(AllVariables(bindings)) ==>
          Net(rows, a, t) == if OthersHold(source, bindings, a, hs, t) then SourceChange(source, bindings, a, hs, t) else 0)
  }

  lemma CompleteDelivers(source: nat, bindings: seq<Binding>, prefix: seq<Var>, hs: Histories, s: Stream<Tuple>)
    requires source < |bindings| && bindings[source].Attribute?
    requires Carries(source, bindings, prefix, hs, s)
    requires Collections.Distinct(prefix) && SameMembers(prefix, AllVariables(bindings))
    ensures Delivers(source, bindings, hs, Assigned(prefix, Leave(s)))
  {
    var rows := Assigned(prefix, Leave(s));
    assert ToSet(prefix) == ToSet(AllVariables(bindings));
    forall r | r in rows ensures r.data.Keys == ToSet(AllVariables(bindings)) {
      var i :| 0 <= i < |rows| && rows[i] == r;
      assert r.data == Zip(prefix, Leave(s)[i].data);
    }
    forall a: Assignment, t: nat | a.Keys == ToSet(AllVariables(bindings))
      ensures Net(rows, a, t) == if OthersHold(source, bindings, a, hs, t) then SourceChange(source, bindings, a, hs, t) else 0
    {
      forall r | r in Leave(s) ensures |r.data| == |prefix| {
        var i :| 0 <= i < |s| && Leave(s)[i] == r;
        assert s[i] in s;
      }
      NetAssigned(prefix, Leave(s), a, t);
      NetLeave(s, Projected(a, prefix), t);
      forall j | 0 <= j < |bindings| ensures Within(bindings[j], prefix) {
        forall x | x in bindings[j].Variables() ensures x in prefix { AllVariablesAre(bindings, x); }
      }
      assert Enforced(source, bindings, prefix, a, hs, t) <==> OthersHold(source, bindings, a, hs, t);
    }
  }

  lemma ProjectionAgrees(prefix: seq<Var>, s: seq<Record<Tuple, nat>>, xs: seq<Var>)
    requires forall x :: x in xs ==> x in prefix
    ensures ProjectAll(Assigned(prefix, s), xs) ==
      seq(|s|, i requires 0 <= i < |s| => Record(Reprojected(prefix, s[i].data, xs), s[i].time, s[i].diff))
  {
    forall i | 0 <= i < |s| ensures Projected(Zip(prefix, s[i].data), xs) == Reprojected(prefix, s[i].data, xs) {}
  }

  lemma ProjectionOntoPrefix(prefix: seq<Var>, s: seq<Record<Tuple, nat>>)
    requires Collections.Distinct(prefix)
    requires forall r :: r in s ==> |r.data| == |prefix|
    ensures ProjectAll(Assigned(prefix, s), prefix) == s
  {
    forall i | 0 <= i < |s| ensures ProjectAll(Assigned(prefix, s), prefix)[i] == s[i] {
      assert s[i] in s;
      ZipIsInverse(prefix, s[i].data, map[]);
    }
  }

  ghost predicate Ready(q: Query, source: nat, store: Store, hs: Histories)
    requires source < |q.bindings|
  {
    && AllProper(q.bindings) && AllSimple(q.bindings, store) && AllProvided(q.bindings, store, hs)
    && (forall x :: x in q.variables ==> x in AllVariables(q.bindings))
    && q.bindings[source].Attribute?
    && ConflictsResolvable(source, q.bindings) && Connected(q.bindings, source)
    && Proposable(source, q.bindings) && Validatable(source, q.bindings, store, hs)
  }

  /** The delta pipeline driven by changes of one attribute binding. */
  method RunPipeline(q: Query, source: nat, store: Store, ghost hs: Histories)
    returns (out: Outcome<seq<Record<Tuple, nat>>>, ghost rows: seq<Record<Assignment, nat>>)
    requires source < |q.bindings| && Ready(q, source, store, hs)
    ensures out.Ok? && out.value == ProjectAll(rows, q.variables)
    ensures Delivers(source, q.bindings, hs, rows)
  {
    var order, _ := PlanOrder(source, q.bindings);
    var start, s0 := StartPipeline(source, q.bindings, store, hs);
    assert order[..2] == q.bindings[source].Variables();
    var prefix, s := GrowPipeline(source, q.bindings, order, store, hs, start, s0);
    CompleteDelivers(source, q.bindings, prefix, hs, s.value);
    var tuples := Leave(s.value);
    rows := Assigned(prefix, tuples);
    if q.variables == prefix {
      forall r | r in tuples ensures |r.data| == |prefix| {
        var i :| 0 <= i < |s.value| && tuples[i] == r;
        assert s.value[i] in s.value;
      }
      ProjectionOntoPrefix(prefix, tuples);
      out := Ok(tuples);
    } else {
      ProjectionAgrees(prefix, tuples, q.variables);
      out := Ok(seq(|tuples|, i requires 0 <= i < |tuples| =>
        Record(Reprojected(prefix, tuples[i].data, q.variables), tuples[i].time, tuples[i].diff)));
    }
  }
}
