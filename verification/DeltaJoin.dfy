/** All delta pipelines together maintain the join of all bindings. */
module DeltaJoin {
  import opened Values
  import opened Bindings
  import opened Collections
  import opened AltNeuTime
  import opened Extenders
  import opened Indices
  import opened PlanOrders
  import opened Semantics
  import opened Pipelines
  import opened Hector

  function Indicator(b: bool): int { if b then 1 else 0 }

  /** The first `k` bindings through time `t`, the others strictly before `t`. */
  ghost predicate Mixed(bindings: seq<Binding>, a: Assignment, hs: Histories, t: nat, k: nat) {
    forall j :: 0 <= j < |bindings| ==> Holds(bindings[j], a, hs, if j < k then t + 1 else t)
  }

  lemma {:induction false} HoldsIsStable(b: Binding, a: Assignment, hs: Histories, n: nat, m: nat)
    requires b.Constant? || b.BinaryPredicate? || (b.Not? && (b.binding.Constant? || b.binding.BinaryPredicate?))
    ensures Holds(b, a, hs, n) == Holds(b, a, hs, m)
  {
  }

  /** The change of a set-valued attribute at `t` is the change of its truth value. */
  lemma SourceChangeIsDifference(source: nat, bindings: seq<Binding>, a: Assignment, hs: Histories, t: nat)
    requires source < |bindings| && bindings[source].Attribute?
    requires bindings[source].aid in hs && SetValued(hs[bindings[source].aid])
    ensures SourceChange(source, bindings, a, hs, t) ==
      Indicator(Holds(bindings[source], a, hs, t + 1)) - Indicator(Holds(bindings[source], a, hs, t))
  {
    var b := bindings[source];
    var h := hs[b.aid];
    var p := (Lookup(a, b.e), Lookup(a, b.v));
    CountBeforeStep(h, p, t);
    assert 0 <= CountBefore(h, p, t) <= 1 && 0 <= CountBefore(h, p, t + 1) <= 1;
  }

  /** One pipeline moves the join from binding `source` seen before `t` to it
      seen through `t`. */
  lemma PipelineIsDifference(source: nat, bindings: seq<Binding>, store: Store, hs: Histories, a: Assignment, t: nat)
    requires source < |bindings|
    requires AllSimple(bindings, store) && AllProvided(bindings, store, hs)
    ensures Indicator(Mixed(bindings, a, hs, t, source + 1)) - Indicator(Mixed(bindings, a, hs, t, source)) ==
      if bindings[source].Attribute? && OthersHold(source, bindings, a, hs, t)
      then SourceChange(source, bindings, a, hs, t) else 0
  {
    var b := bindings[source];
    assert Mixed(bindings, a, hs, t, source + 1) <==> OthersHold(source, bindings, a, hs, t) && Holds(b, a, hs, t + 1);
    assert Mixed(bindings, a, hs, t, source) <==> OthersHold(source, bindings, a, hs, t) && Holds(b, a, hs, t);
    assert Provided(b, store, hs) && Simple(b);
    if b.Attribute? {
      SourceChangeIsDifference(source, bindings, a, hs, t);
    } else {
      HoldsIsStable(b, a, hs, t, t + 1);
    }
  }

  /** The rows of the first `k` pipelines telescope. */
  ghost predicate Telescopes(bindings: seq<Binding>, hs: Histories, rows: seq<Record<Assignment, nat>>, k: nat) {
    && (forall r :: r in rows ==> r.data.Keys == ToSet(AllVariables(bindings)))
    && (forall a: Assignment, t: nat :: a.Keys == ToSet(AllVariables(bindings)) ==>
          Net(rows, a, t) == Indicator(Mixed(bindings, a, hs, t, k)) - Indicator(Mixed(bindings, a, hs, t, 0)))
  }

  lemma TelescopeStep(bindings: seq<Binding>, store: Store, hs: Histories, rows: seq<Record<Assignment, nat>>,
                      more: seq<Record<Assignment, nat>>, k: nat)
    requires k < |bindings| && AllSimple(bindings, store) && AllProvided(bindings, store, hs)
    requires Telescopes(bindings, hs, rows, k)
    requires if bindings[k].Attribute? then Delivers(k, bindings, hs, more) else more == []
    ensures Telescopes(bindings, hs, rows + more, k + 1)
  {
    forall a: Assignment, t: nat | a.Keys == ToSet(AllVariables(bindings))
      ensures Net(rows + more, a, t) == Indicator(Mixed(bindings, a, hs, t, k + 1)) - Indicator(Mixed(bindings, a, hs, t, 0))
    {
      NetConcat(rows, more, a, t);
      PipelineIsDifference(k, bindings, store, hs, a, t);
    }
  }

  ghost predicate HasAttribute(bindings: seq<Binding>) {
    exists j :: 0 <= j < |bindings| && bindings[j].Attribute?
  }

  /** Accumulated up to any time, the rows of all pipelines are exactly the
      satisfying assignments. */
  lemma {:induction false} RowsAreSatisfying(bindings: seq<Binding>, hs: Histories, rows: seq<Record<Assignment, nat>>,
                                             a: Assignment, n: nat)
    requires HasAttribute(bindings)
    requires Telescopes(bindings, hs, rows, |bindings|)
    requires a.Keys == ToSet(AllVariables(bindings))
    ensures CountBefore(rows, a, n) == Indicator(Satisfies(a, bindings, hs, n))
  {
    if n == 0 {
      CountBeforeZero(rows, a);
      var j :| 0 <= j < |bindings| && bindings[j].Attribute?;
      CountBeforeZero(HistoryOf(hs, bindings[j].aid), (Lookup(a, bindings[j].e), Lookup(a, bindings[j].v)));
      assert !Holds(bindings[j], a, hs, 0);
    } else {
      RowsAreSatisfying(bindings, hs, rows, a, n - 1);
      CountBeforeStep(rows, a, n - 1);
      assert Mixed(bindings, a, hs, n - 1, |bindings|) <==> Satisfies(a, bindings, hs, n);
      assert Mixed(bindings, a, hs, n - 1, 0) <==> Satisfies(a, bindings, hs, n - 1);
    }
  }

  //
  // Projecting the rows
  //

  /** `answers` are the satisfying assignments at time `t` that project to `x`. */
  ghost predicate AreAnswers(q: Query, hs: Histories, t: nat, x: Tuple, answers: set<Assignment>) {
    forall a :: a in answers <==>
      a.Keys == ToSet(AllVariables(q.bindings)) && Satisfies(a, q.bindings, hs, t + 1) && Projected(a, q.variables) == x
  }

  function Without(rows: seq<Record<Assignment, nat>>, a: Assignment): seq<Record<Assignment, nat>> {
    if rows == [] then []
    else (if rows[0].data == a then [] else [rows[0]]) + Without(rows[1..], a)
  }

  lemma {:induction false} WithoutOthers(rows: seq<Record<Assignment, nat>>, a: Assignment, b: Assignment, n: nat)
    requires b != a
    ensures CountBefore(Without(rows, a), b, n) == CountBefore(rows, b, n)
  {
    if rows != [] {
      WithoutOthers(rows[1..], a, b, n);
      if rows[0].data == a {
        assert Without(rows, a) == Without(rows[1..], a);
      } else {
        assert Without(rows, a)[1..] == Without(rows[1..], a);
      }
    }
  }

  lemma {:induction false} WithoutRows(rows: seq<Record<Assignment, nat>>, a: Assignment)
    ensures forall r :: r in Without(rows, a) ==> r in rows && r.data != a
  {
    if rows != [] { WithoutRows(rows[1..], a); }
  }

  lemma {:induction false} WithoutProjected(rows: seq<Record<Assignment, nat>>, a: Assignment, xs: seq<Var>, x: Tuple, n: nat)
    requires Projected(a, xs) == x
    ensures CountBefore(ProjectAll(rows, xs), x, n) ==
      CountBefore(ProjectAll(Without(rows, a), xs), x, n) + CountBefore(rows, a, n)
  {
    if rows != [] {
      var rest, w := rows[1..], Without(rows, a);
      WithoutProjected(rest, a, xs, x, n);
      assert ProjectAll(rows, xs)[1..] == ProjectAll(rest, xs);
      if rows[0].data == a {
        assert w == Without(rest, a);
      } else {
        assert w[1..] == Without(rest, a) && w[0] == rows[0];
        assert ProjectAll(w, xs)[1..] == ProjectAll(Without(rest, a), xs);
      }
    }
  }

  /** Summing diffs per projected tuple counts the assignments behind it. */
  lemma {:induction false} ProjectionCounts(rows: seq<Record<Assignment, nat>>, xs: seq<Var>, x: Tuple, n: nat,
                                            candidates: set<Assignment>, answers: set<Assignment>)
    requires forall r :: r in rows && Projected(r.data, xs) == x ==> r.data in candidates
    requires answers <= candidates && forall a :: a in candidates ==> Projected(a, xs) == x
    requires forall a :: a in candidates ==> CountBefore(rows, a, n) == Indicator(a in answers)
    ensures CountBefore(ProjectAll(rows, xs), x, n) == |answers|
    decreases candidates
  {
    if candidates == {} {
      assert answers == {};
      NothingProjects(rows, xs, x, n);
    } else {
      var a :| a in candidates;
      WithoutProjected(rows, a, xs, x, n);
      WithoutRows(rows, a);
      forall b | b in candidates - {a} ensures CountBefore(Without(rows, a), b, n) == Indicator(b in answers - {a}) {
        WithoutOthers(rows, a, b, n);
      }
      ProjectionCounts(Without(rows, a), xs, x, n, candidates - {a}, answers - {a});
    }
  }

  lemma {:induction false} NothingProjects(rows: seq<Record<Assignment, nat>>, xs: seq<Var>, x: Tuple, n: nat)
    requires forall r :: r in rows ==> Projected(r.data, xs) != x
    ensures CountBefore(ProjectAll(rows, xs), x, n) == 0
  {
    if rows != [] {
      assert rows[0] in rows;
      assert ProjectAll(rows, xs)[1..] == ProjectAll(rows[1..], xs);
      forall r | r in rows[1..] ensures r in rows {}
      NothingProjects(rows[1..], xs, x, n);
    }
  }

  lemma {:induction false} CountedIsPresent(rows: seq<Record<Assignment, nat>>, a: Assignment, n: nat)
    requires CountBefore(rows, a, n) != 0
    ensures exists r :: r in rows && r.data == a
  {
    if rows[0].data == a {
      assert rows[0] in rows;
    } else {
      CountedIsPresent(rows[1..], a, n);
      var r :| r in rows[1..] && r.data == a;
      assert r in rows;
    }
  }

  /** There are finitely many answers, and accumulated through `t` the output
      holds `x` once for each of them. */
  ghost predicate Answered(q: Query, hs: Histories, out: seq<Record<Tuple, nat>>, t: nat, x: Tuple) {
    exists answers :: AreAnswers(q, hs, t, x, answers) && CountBefore(out, x, t + 1) == |answers|
  }

  lemma RowsAnswer(q: Query, hs: Histories, rows: seq<Record<Assignment, nat>>, t: nat, x: Tuple)
    requires HasAttribute(q.bindings) && Telescopes(q.bindings, hs, rows, |q.bindings|)
    ensures Answered(q, hs, ProjectAll(rows, q.variables), t, x)
  {
    var candidates := set r | r in rows && Projected(r.data, q.variables) == x :: r.data;
    var answers := set a | a in candidates && Satisfies(a, q.bindings, hs, t + 1);
    forall a: Assignment | a.Keys == ToSet(AllVariables(q.bindings)) && Satisfies(a, q.bindings, hs, t + 1) && Projected(a, q.variables) == x
      ensures a in answers
    {
      RowsAreSatisfying(q.bindings, hs, rows, a, t + 1);
      CountedIsPresent(rows, a, t + 1);
    }
    assert AreAnswers(q, hs, t, x, answers);
    forall a | a in candidates ensures CountBefore(rows, a, t + 1) == Indicator(a in answers) {
      RowsAreSatisfying(q.bindings, hs, rows, a, t + 1);
    }
    ProjectionCounts(rows, q.variables, x, t + 1, candidates, answers);
  }

  //
  // The operator
  //

  /** The queries Hector supports, on a store that provides their attributes. */
  ghost predicate Supported(q: Query, store: Store, hs: Histories) {
    && AllProper(q.bindings) && AllSimple(q.bindings, store) && AllProvided(q.bindings, store, hs)
    && q.variables != [] && (forall x :: x in q.variables ==> x in AllVariables(q.bindings))
    && HasAttribute(q.bindings)
    && (|q.bindings| > 1 ==>
          forall j :: 0 <= j < |q.bindings| && q.bindings[j].Attribute? ==>
            ConflictsResolvable(j, q.bindings) && Connected(q.bindings, j) && Proposable(j, q.bindings) && Validatable(j, q.bindings, store, hs))
  }

  /** Two attributes that meet in one variable. */
  function Chain(): seq<Binding> { [Attribute(0, "a", 1), Attribute(1, "b", 2)] }

  lemma ChainVariables()
    ensures AllVariables(Chain()) == [0, 1, 1, 2]
  {
    var bs := Chain();
    var last := [bs[1]];
    assert bs[1..] == last && last[1..] == [];
    assert AllVariables(last) == last[0].Variables() + AllVariables(last[1..]) == [1, 2];
    assert AllVariables(bs) == bs[0].Variables() + AllVariables(bs[1..]);
  }

  lemma ChainConnects(source: nat, x: Var)
    requires source < 2 && x <= 2
    ensures Reachable(Chain(), source, Chain()[source].Variables(), x)
  {
    var bs, from := Chain(), Chain()[source].Variables();
    assert from[0] == source && from[1] == source + 1;
    if x in from {
      assert IsPath(bs, source, [x]);
    } else if source == 0 {
      assert bs[1].Variables() == [1, 2];
      assert Linked(bs, 0, 1, 2);
      assert IsPath(bs, 0, [1, 2]);
    } else {
      assert bs[0].Variables() == [0, 1];
      assert Linked(bs, 1, 1, 0);
      assert IsPath(bs, 1, [1, 0]);
    }
  }

  lemma ChainHasNoConflicts(source: nat)
    requires source < 2
    ensures SourceConflicts(source, Chain()) == []
  {
    var bs := Chain();
    assert SourceConflicts(source, bs, 2) == [];
    assert !InConflict(bs[1 - source], bs[source].e, bs[source].v);
    assert SourceConflicts(source, bs, 1) == [];
  }

  /** What `Supported` asks for can be met, by any histories of two attributes and
      with the indices as they are installed. */
  lemma ChainIsSupported(a: History, b: History)
    requires SetValued(a) && Bounded(a) && SetValued(b) && Bounded(b)
    ensures Supported(Query([0, 2], Chain()), map["a" := AsInstalled(a), "b" := AsInstalled(b)], map["a" := a, "b" := b])
  {
    var bs := Chain();
    assert "a"[0] != "b"[0];
    assert bs[0].Attribute?;
    ChainVariables();
    forall j | 0 <= j < 2 ensures ConflictsResolvable(j, bs) && Connected(bs, j) && Proposable(j, bs) {
      ChainHasNoConflicts(j);
      AttributesPropose(j, bs);
      forall x | x in AllVariables(bs) ensures Reachable(bs, j, bs[j].Variables(), x) { ChainConnects(j, x); }
    }
  }

  /** A chain, a negated predicate between its ends, and a constant. */
  function Constrained(op: Predicate, value: Value): seq<Binding> {
    [Attribute(0, "a", 1), Attribute(1, "b", 2), Not(BinaryPredicate(op, 0, 2)), Constant(0, value)]
  }

  lemma ConstrainedAre(op: Predicate, value: Value, j: nat)
    requires j < 4
    ensures var b := Constrained(op, value)[j]; b.Proper() && Simple(b)
    ensures Constrained(op, value)[j].Variables() == if j == 0 then [0, 1] else if j == 1 then [1, 2] else if j == 2 then [0, 2] else [0]
  {
  }

  lemma ConstrainedVariables(op: Predicate, value: Value, x: Var)
    ensures x in AllVariables(Constrained(op, value)) <==> x <= 2
  {
    var bs := Constrained(op, value);
    AllVariablesAre(bs, x);
    forall j | 0 <= j < 4 ensures bs[j].Variables() == if j == 0 then [0, 1] else if j == 1 then [1, 2] else if j == 2 then [0, 2] else [0] {
      ConstrainedAre(op, value, j);
    }
    if x < 2 { assert bs[0].Variables()[x] == x; }
    if x == 2 { assert bs[1].Variables()[1] == x; }
  }

  lemma ConstrainedConnects(op: Predicate, value: Value, source: nat, x: Var)
    requires source < 2 && x <= 2
    ensures Reachable(Constrained(op, value), source, Constrained(op, value)[source].Variables(), x)
  {
    var bs := Constrained(op, value);
    var from := bs[source].Variables();
    assert from[0] == source && from[1] == source + 1;
    if x in from {
      assert IsPath(bs, source, [x]);
    } else if source == 0 {
      assert bs[1].Variables() == [1, 2];
      assert Linked(bs, 0, 1, 2);
      assert IsPath(bs, 0, [1, 2]);
    } else {
      assert bs[0].Variables() == [0, 1];
      assert Linked(bs, 1, 1, 0);
      assert IsPath(bs, 1, [1, 0]);
    }
  }

  /** Only the constant conflicts, and only with the first attribute. */
  lemma ConstrainedConflicts(op: Predicate, value: Value, source: nat)
    requires source < 2
    ensures SourceConflicts(source, Constrained(op, value)) == if source == 0 then [Constant(0, value)] else []
  {
    var bs := Constrained(op, value);
    assert SourceConflicts(source, bs, 4) == [];
    assert SourceConflicts(source, bs, 3) == if source == 0 then [bs[3]] else [];
    assert SourceConflicts(source, bs, 2) == SourceConflicts(source, bs, 3);
    assert SourceConflicts(source, bs, 1) == SourceConflicts(source, bs, 2);
  }

  /** Three variables leave one for the only step. */
  lemma ThreeVariables(order: seq<Var>, source: nat, k: nat)
    requires source < 2 && Collections.Distinct(order) && (forall x :: x in order ==> x <= 2)
    requires 2 <= k < |order| && order[0] == source && order[1] == source + 1
    ensures k == 2 && order[2] == 2 - 2 * source && order[..k] == [source, source + 1]
  {
    assert order[k] in order && order[2] in order;
    assert order[0] != order[k] && order[1] != order[k] && order[0] != order[2] && order[1] != order[2];
  }

  lemma ConstrainedStep(op: Predicate, value: Value, source: nat)
    requires source < 2
    ensures CanPropose(source, Constrained(op, value), [source, source + 1], 2 - 2 * source)
  {
    assert Constrained(op, value)[1 - source].CanExtend([source, source + 1], 2 - 2 * source);
  }

  lemma PlannedGrows(source: nat, bindings: seq<Binding>, order: seq<Var>)
    requires source < |bindings| && bindings[source].Attribute? && bindings[source].Proper() && IsPlanned(source, bindings, order)
    ensures GrowsFromSource(bindings, source, order)
  {
    var n :| StopsAfter(source, bindings, n) && order == AfterRounds(source, bindings, n).prefix;
    RoundsAreSound(source, bindings, n);
  }

  /** Every planned order ends with the variable that the other attribute brings. */
  lemma ConstrainedOrder(op: Predicate, value: Value, source: nat, order: seq<Var>, k: nat)
    requires source < 2 && GrowsFromSource(Constrained(op, value), source, order) && 2 <= k < |order|
    ensures order[..k] == [source, source + 1] && order[k] == 2 - 2 * source
  {
    var from := Constrained(op, value)[source].Variables();
    assert from == order[..2] && from[0] == source && from[1] == source + 1;
    forall x | x in order ensures x <= 2 { ConstrainedVariables(op, value, x); }
    ThreeVariables(order, source, k);
  }

  /** A single step that can propose is enough. */
  lemma OneStepProposes(source: nat, bindings: seq<Binding>, prefix: seq<Var>, target: Var)
    requires source < |bindings| && bindings[source].Attribute? && bindings[source].Proper()
    requires CanPropose(source, bindings, prefix, target)
    requires forall order, k :: GrowsFromSource(bindings, source, order) && 2 <= k < |order| ==> order[..k] == prefix && order[k] == target
    ensures Proposable(source, bindings)
  {
    forall order | IsPlanned(source, bindings, order) ensures StepsPropose(source, bindings, order) {
      PlannedGrows(source, bindings, order);
    }
  }

  lemma ConstrainedProposes(op: Predicate, value: Value, source: nat)
    requires source < 2
    ensures Proposable(source, Constrained(op, value))
  {
    var bs, prefix, target := Constrained(op, value), [source, source + 1], 2 - 2 * source;
    ConstrainedStep(op, value, source);
    forall order, k | GrowsFromSource(bs, source, order) && 2 <= k < |order| ensures order[..k] == prefix && order[k] == target {
      ConstrainedOrder(op, value, source, order, k);
    }
    OneStepProposes(source, bs, prefix, target);
  }

  /** Predicates, negations and constants are supported, over any histories whose
      indices can be validated in reverse. */
  lemma ConstrainedIsSupported(a: History, b: History, op: Predicate, value: Value)
    requires SetValued(a) && Bounded(a) && SetValued(b) && Bounded(b)
    ensures var store := map["a" := AsInstalled(a).(reverseValidate := Swapped(a)), "b" := AsInstalled(b).(reverseValidate := Swapped(b))];
      Supported(Query([0, 2], Constrained(op, value)), store, map["a" := a, "b" := b])
  {
    var bs := Constrained(op, value);
    var store: Store, hs: Histories :=
      map["a" := AsInstalled(a).(reverseValidate := Swapped(a)), "b" := AsInstalled(b).(reverseValidate := Swapped(b))], map["a" := a, "b" := b];
    assert "a"[0] != "b"[0];
    SwappedIndexServes(a);
    SwappedIndexServes(b);
    assert bs[0].Attribute?;
    forall j | 0 <= j < 4 ensures bs[j].Proper() && Simple(bs[j]) { ConstrainedAre(op, value, j); }
    forall x: Var ensures x in AllVariables(bs) <==> x <= 2 { ConstrainedVariables(op, value, x); }
    forall j | 0 <= j < 2 ensures ConflictsResolvable(j, bs) && Connected(bs, j) && Proposable(j, bs) && Validatable(j, bs, store, hs) {
      ConstrainedConflicts(op, value, j);
      ConstrainedProposes(op, value, j);
      ServedIsValidatable(j, bs, store, hs);
      forall x | x in AllVariables(bs) ensures Reachable(bs, j, bs[j].Variables(), x) { ConstrainedConnects(op, value, j, x); }
    }
  }

  /** A single attribute needs no join. */
  method ImplementSingleBinding(q: Query, store: Store, ghost hs: Histories)
    returns (out: seq<Record<Tuple, nat>>, ghost rows: seq<Record<Assignment, nat>>)
    requires Supported(q, store, hs) && |q.bindings| == 1
    ensures out == ProjectAll(rows, q.variables)
    ensures Delivers(0, q.bindings, hs, rows)
  {
    var b := q.bindings[0];
    assert Provided(b, store, hs) && b.Proper();
    var forward := store[b.aid].forwardPropose;
    var prefix := b.Variables();
    var tuples := seq(|forward|, i requires 0 <= i < |forward| =>
      Record([forward[i].data.0, forward[i].data.1], forward[i].time, forward[i].diff));
    out := seq(|tuples|, i requires 0 <= i < |tuples| =>
      Record(Reprojected(prefix, tuples[i].data, q.variables), tuples[i].time, tuples[i].diff));
    rows := Assigned(prefix, tuples);
    assert AllVariables(q.bindings) == prefix + AllVariables(q.bindings[1..]) == prefix;
    ProjectionAgrees(prefix, tuples, q.variables);
    forall a: Assignment, t: nat | a.Keys == ToSet(prefix) ensures Net(rows, a, t) == SourceChange(0, q.bindings, a, hs, t) {
      NetAssigned(prefix, tuples, a, t);
      NetOfPairs(forward, tuples, Lookup(a, b.e), Lookup(a, b.v), t);
      assert Projected(a, prefix) == [Lookup(a, b.e), Lookup(a, b.v)];
    }
  }

  lemma {:induction false} NetOfPairs(h: History, tuples: seq<Record<Tuple, nat>>, x: Value, y: Value, t: nat)
    requires |tuples| == |h|
    requires forall i :: 0 <= i < |h| ==> tuples[i] == Record([h[i].data.0, h[i].data.1], h[i].time, h[i].diff)
    ensures Net(tuples, [x, y], t) == Net(h, (x, y), t)
  {
    if h != [] {
      NetOfPairs(h[1..], tuples[1..], x, y, t);
      assert tuples[0].data == [x, y] <==> h[0].data == (x, y) by {
        if tuples[0].data == [x, y] { assert tuples[0].data[0] == x && tuples[0].data[1] == y; }
      }
    }
  }

  /** What one binding contributes: only attributes experience change. */
  method RunBinding(q: Query, source: nat, store: Store, ghost hs: Histories)
    returns (delta: Outcome<seq<Record<Tuple, nat>>>, ghost more: seq<Record<Assignment, nat>>)
    requires Supported(q, store, hs) && |q.bindings| > 1 && source < |q.bindings|
    ensures delta.Ok? && delta.value == ProjectAll(more, q.variables)
    ensures if q.bindings[source].Attribute? then Delivers(source, q.bindings, hs, more) else more == []
  {
    if q.bindings[source].Attribute? {
      delta, more := RunPipeline(q, source, store, hs);
    } else {
      delta, more := Ok([]), [];
    }
  }

  lemma ProjectAllConcat(a: seq<Record<Assignment, nat>>, b: seq<Record<Assignment, nat>>, xs: seq<Var>)
    ensures ProjectAll(a + b, xs) == ProjectAll(a, xs) + ProjectAll(b, xs)
  {
  }

  /** One pipeline per attribute binding, their outputs concatenated. */
  method ImplementJoin(q: Query, store: Store, ghost hs: Histories)
    returns (out: Outcome<seq<Record<Tuple, nat>>>, ghost rows: seq<Record<Assignment, nat>>)
    requires Supported(q, store, hs) && |q.bindings| > 1
    ensures out.Ok? && out.value == ProjectAll(rows, q.variables)
    ensures Telescopes(q.bindings, hs, rows, |q.bindings|)
  {
    var changes: seq<Record<Tuple, nat>> := [];
    rows := [];
    for source := 0 to |q.bindings|
      invariant changes == ProjectAll(rows, q.variables)
      invariant Telescopes(q.bindings, hs, rows, source)
    {
      var delta;
      ghost var more;
      delta, more := RunBinding(q, source, store, hs);
      TelescopeStep(q.bindings, store, hs, rows, more, source);
      ProjectAllConcat(rows, more, q.variables);
      changes := changes + delta.value;
      rows := rows + more;
    }
    out := Ok(changes);
  }

  /** The output accumulated through any time `t` holds every tuple as often as
      there are assignments that satisfy all bindings at `t` and project to it. */
  method Implement(q: Query, store: Store, ghost hs: Histories) returns (out: Outcome<seq<Record<Tuple, nat>>>)
    requires Supported(q, store, hs)
    ensures out.Ok?
    ensures forall t: nat, x: Tuple :: Answered(q, hs, out.value, t, x)
  {
    ghost var rows;
    if |q.bindings| == 1 {
      var single;
      single, rows := ImplementSingleBinding(q, store, hs);
      out := Ok(single);
      TelescopeStep(q.bindings, store, hs, [], rows, 0);
      assert [] + rows == rows;
    } else {
      out, rows := ImplementJoin(q, store, hs);
    }
    forall t: nat, x: Tuple ensures Answered(q, hs, out.value, t, x) {
      RowsAnswer(q, hs, rows, t, x);
    }
  }
}
