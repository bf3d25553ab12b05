/** Choosing the variable order of a delta pipeline. */
module PlanOrders {
  import opened Values
  import opened Bindings
  import Collections
  import Sorting

  function AllVariables(bindings: seq<Binding>): seq<Var> {
    if bindings == [] then [] else bindings[0].Variables() + AllVariables(bindings[1..])
  }

  lemma {:induction false} AllVariablesAre(bindings: seq<Binding>, x: Var)
    ensures x in AllVariables(bindings) <==> exists j :: 0 <= j < |bindings| && x in bindings[j].Variables()
  {
    if bindings != [] {
      AllVariablesAre(bindings[1..], x);
      if x in AllVariables(bindings[1..]) {
        var j :| 0 <= j < |bindings[1..]| && x in bindings[1..][j].Variables();
        assert x in bindings[j + 1].Variables();
      }
      forall j | 0 <= j < |bindings| && x in bindings[j].Variables() ensures x in AllVariables(bindings) {
        if j > 0 { assert x in bindings[1..][j - 1].Variables(); }
      }
    }
  }

  function Compared(a: nat, b: nat, otherwise: bool): bool {
    if a != b then a < b else otherwise
  }

  function PredicateRank(op: Predicate): nat {
    match op
    case LT => 0
    case GT => 1
    case LTE => 2
    case GTE => 3
    case EQ => 4
    case NEQ => 5
  }

  function BindingRank(b: Binding): nat {
    match b
    case Attribute(_, _, _) => 0
    case Not(_) => 1
    case Constant(_, _) => 2
    case BinaryPredicate(_, _, _) => 3
  }

  /** The derived order on bindings: by kind, then by variables, then by the rest. */
  predicate BindingLess(a: Binding, b: Binding) {
    if BindingRank(a) != BindingRank(b) then BindingRank(a) < BindingRank(b)
    else match a
      case Attribute(e, aid, v) => Compared(e, b.e, Compared(v, b.v, StringLess(aid, b.aid)))
      case Not(inner) => BindingLess(inner, b.binding)
      case Constant(x, value) => Compared(x, b.variable, Less(value, b.value))
      case BinaryPredicate(op, x, y) => Compared(x, b.x, Compared(y, b.y, PredicateRank(op) < PredicateRank(b.op)))
  }

  lemma BindingLessTrichotomy(a: Binding, b: Binding)
    ensures a == b ==> !BindingLess(a, b)
    ensures a != b ==> BindingLess(a, b) != BindingLess(b, a)
  {
    if BindingRank(a) == BindingRank(b) {
      match a
      case Attribute(_, aid, _) => StringLessTrichotomy(aid, b.aid);
      case Not(inner) => BindingLessTrichotomy(inner, b.binding);
      case Constant(_, value) => LessTrichotomy(value, b.value);
      case BinaryPredicate(_, _, _) =>
    }
  }

  lemma BindingLessTransitive(a: Binding, b: Binding, c: Binding)
    requires BindingLess(a, b) && BindingLess(b, c)
    ensures BindingLess(a, c)
  {
    if BindingRank(a) == BindingRank(b) == BindingRank(c) {
      match a
      case Attribute(_, aid, _) => if StringLess(aid, b.aid) && StringLess(b.aid, c.aid) { StringLessTransitive(aid, b.aid, c.aid); }
      case Not(inner) => BindingLessTransitive(inner, b.binding, c.binding);
      case Constant(_, value) => if Less(value, b.value) && Less(b.value, c.value) { LessTransitive(value, b.value, c.value); }
      case BinaryPredicate(_, _, _) =>
    }
  }

  /** Bindings compare by kind in the order of declaration, then by variables,
      and last by name, value or operator. */
  lemma BindingLessIs(a: Binding, b: Binding)
    ensures a.Attribute? && !b.Attribute? ==> BindingLess(a, b)
    ensures a.Not? && (b.Constant? || b.BinaryPredicate?) ==> BindingLess(a, b)
    ensures a.Constant? && b.BinaryPredicate? ==> BindingLess(a, b)
    ensures a.Attribute? && b.Attribute? && (a.e < b.e || (a.e == b.e && a.v < b.v)) ==> BindingLess(a, b)
    ensures a.Attribute? && b.Attribute? && a.e == b.e && a.v == b.v ==> (BindingLess(a, b) <==> StringLess(a.aid, b.aid))
    ensures a.Not? && b.Not? ==> (BindingLess(a, b) <==> BindingLess(a.binding, b.binding))
    ensures a.Constant? && b.Constant? && a.variable < b.variable ==> BindingLess(a, b)
    ensures a.Constant? && b.Constant? && a.variable == b.variable ==> (BindingLess(a, b) <==> Less(a.value, b.value))
    ensures a.BinaryPredicate? && b.BinaryPredicate? && (a.x < b.x || (a.x == b.x && a.y < b.y)) ==> BindingLess(a, b)
    ensures a.BinaryPredicate? && b.BinaryPredicate? && a.x == b.x && a.y == b.y ==>
      (BindingLess(a, b) <==>
        match a.op
        case LT => b.op != LT
        case GT => b.op in {LTE, GTE, EQ, NEQ}
        case LTE => b.op in {GTE, EQ, NEQ}
        case GTE => b.op in {EQ, NEQ}
        case EQ => b.op == NEQ
        case NEQ => false)
  {
  }

  lemma BindingOrder()
    ensures Sorting.StrictOrder(BindingLess) && Sorting.Total(BindingLess)
  {
    forall a: Binding, b: Binding
      ensures (BindingLess(a, b) ==> !BindingLess(b, a)) && (a == b || BindingLess(a, b) || BindingLess(b, a))
    {
      BindingLessTrichotomy(a, b);
    }
    forall a: Binding, b: Binding, c: Binding | BindingLess(a, b) && BindingLess(b, c) ensures BindingLess(a, c) {
      BindingLessTransitive(a, b, c);
    }
    Sorting.TotalIsStrict(BindingLess);
  }

  /** The non-source bindings that talk about a variable. */
  function CandidatesFor(bindings: seq<Binding>, source: nat, target: Var, from: nat := 0): seq<Binding>
    requires from <= |bindings|
    decreases |bindings| - from
  {
    if from == |bindings| then []
    else
      var rest := CandidatesFor(bindings, source, target, from + 1);
      if from != source && bindings[from].Binds(target).Some? then [bindings[from]] + rest else rest
  }

  /** `b` is a binding of the query other than the source. */
  ghost predicate Other(bindings: seq<Binding>, source: nat, b: Binding) {
    exists j :: 0 <= j < |bindings| && j != source && bindings[j] == b
  }

  lemma {:induction false} CandidatesForAre(bindings: seq<Binding>, source: nat, target: Var, from: nat)
    requires from <= |bindings|
    ensures forall b :: b in CandidatesFor(bindings, source, target, from) ==>
      Other(bindings, source, b) && target in b.Variables()
    ensures forall j :: from <= j < |bindings| && j != source && target in bindings[j].Variables() ==>
      bindings[j] in CandidatesFor(bindings, source, target, from)
    decreases |bindings| - from
  {
    if from < |bindings| { CandidatesForAre(bindings, source, target, from + 1); }
  }

  //
  // Connectedness
  //

  /** Two variables related by a binding other than the source. */
  ghost predicate Linked(bindings: seq<Binding>, source: nat, x: Var, y: Var) {
    exists j :: 0 <= j < |bindings| && j != source && x != y &&
      (bindings[j].Variables() == [x, y] || bindings[j].Variables() == [y, x])
  }

  ghost predicate IsPath(bindings: seq<Binding>, source: nat, p: seq<Var>) {
    p != [] && forall i :: 0 <= i < |p| - 1 ==> Linked(bindings, source, p[i], p[i + 1])
  }

  ghost predicate Reachable(bindings: seq<Binding>, source: nat, from: seq<Var>, x: Var) {
    exists p :: IsPath(bindings, source, p) && p[0] in from && p[|p| - 1] == x
  }

  /** Every variable of the query hangs together with the source variables
      through bindings other than the source. */
  ghost predicate Connected(bindings: seq<Binding>, source: nat)
    requires source < |bindings|
  {
    forall x :: x in AllVariables(bindings) ==> Reachable(bindings, source, bindings[source].Variables(), x)
  }

  ghost predicate AllProper(bindings: seq<Binding>) {
    forall j :: 0 <= j < |bindings| ==> bindings[j].Proper()
  }

  lemma {:induction false} PathCrosses(bindings: seq<Binding>, source: nat, prefix: seq<Var>, p: seq<Var>) returns (j: nat)
    requires AllProper(bindings)
    requires IsPath(bindings, source, p) && p[0] in prefix && p[|p| - 1] !in prefix
    ensures j < |bindings| && j != source && bindings[j].ReadyToExtend(prefix).Some?
    ensures exists x :: x in bindings[j].Variables() && x in prefix
    decreases |p|
  {
    if p[1] in prefix {
      assert IsPath(bindings, source, p[1..]) by {
        forall i | 0 <= i < |p[1..]| - 1 ensures Linked(bindings, source, p[1..][i], p[1..][i + 1]) {
          assert Linked(bindings, source, p[i + 1], p[i + 2]);
        }
      }
      j := PathCrosses(bindings, source, prefix, p[1..]);
    } else {
      assert Linked(bindings, source, p[0], p[1]);
      j :| 0 <= j < |bindings| && j != source && p[0] != p[1] &&
        (bindings[j].Variables() == [p[0], p[1]] || bindings[j].Variables() == [p[1], p[0]]);
      var vs := bindings[j].Variables();
      assert vs[0] in vs && vs[1] in vs;
      ReadyIffLastVariable(bindings[j], prefix, p[1]);
    }
  }

  //
  // Queries that hang together as a whole
  //

  lemma {:induction false} AllVariablesConcat(a: seq<Binding>, b: seq<Binding>)
    ensures AllVariables(a + b) == AllVariables(a) + AllVariables(b)
  {
    if a == [] {
      assert a + b == b;
    } else {
      assert (a + b)[1..] == a[1..] + b;
      AllVariablesConcat(a[1..], b);
    }
  }

  /** Any two variables are related through the bindings, none of them left out. */
  ghost predicate Whole(bindings: seq<Binding>) {
    forall x, y :: x in AllVariables(bindings) && y in AllVariables(bindings) ==> Reachable(bindings, |bindings|, [x], y)
  }

  lemma LinkedWidens(a: seq<Binding>, b: seq<Binding>, x: Var, y: Var)
    requires Linked(a, |a|, x, y) || Linked(b, |b|, x, y)
    ensures Linked(a + b, |a + b|, x, y)
  {
    if Linked(a, |a|, x, y) {
      var j :| 0 <= j < |a| && j != |a| && x != y && (a[j].Variables() == [x, y] || a[j].Variables() == [y, x]);
      assert (a + b)[j] == a[j];
    } else {
      var j :| 0 <= j < |b| && j != |b| && x != y && (b[j].Variables() == [x, y] || b[j].Variables() == [y, x]);
      assert (a + b)[|a| + j] == b[j];
    }
  }

  lemma PathWidens(a: seq<Binding>, b: seq<Binding>, p: seq<Var>)
    requires IsPath(a, |a|, p) || IsPath(b, |b|, p)
    ensures IsPath(a + b, |a + b|, p)
  {
    forall i | 0 <= i < |p| - 1 ensures Linked(a + b, |a + b|, p[i], p[i + 1]) { LinkedWidens(a, b, p[i], p[i + 1]); }
  }

  lemma ReachableWidens(a: seq<Binding>, b: seq<Binding>, x: Var, y: Var)
    requires Reachable(a, |a|, [x], y) || Reachable(b, |b|, [x], y)
    ensures Reachable(a + b, |a + b|, [x], y)
  {
    if Reachable(a, |a|, [x], y) {
      var p :| IsPath(a, |a|, p) && p[0] in [x] && p[|p| - 1] == y;
      PathWidens(a, b, p);
    } else {
      var p :| IsPath(b, |b|, p) && p[0] in [x] && p[|p| - 1] == y;
      PathWidens(a, b, p);
    }
  }

  lemma ReachableThrough(bindings: seq<Binding>, source: nat, x: Var, c: Var, y: Var)
    requires Reachable(bindings, source, [x], c) && Reachable(bindings, source, [c], y)
    ensures Reachable(bindings, source, [x], y)
  {
    var p :| IsPath(bindings, source, p) && p[0] in [x] && p[|p| - 1] == c;
    var q :| IsPath(bindings, source, q) && q[0] in [c] && q[|q| - 1] == y;
    var r := p + q[1..];
    forall i | 0 <= i < |r| - 1 ensures Linked(bindings, source, r[i], r[i + 1]) {
      if i < |p| - 1 {
        assert Linked(bindings, source, p[i], p[i + 1]);
      } else {
        assert Linked(bindings, source, q[i - |p| + 1], q[i - |p| + 2]);
      }
    }
    assert IsPath(bindings, source, r) && r[0] == x && r[|r| - 1] == y;
  }

  /** Two wholes with a variable in common make a whole. */
  lemma WholeConcat(a: seq<Binding>, b: seq<Binding>, c: Var)
    requires Whole(a) && Whole(b) && c in AllVariables(a) && c in AllVariables(b)
    ensures Whole(a + b)
  {
    AllVariablesConcat(a, b);
    forall x, y | x in AllVariables(a + b) && y in AllVariables(a + b) ensures Reachable(a + b, |a + b|, [x], y) {
      ReachableWidens(a, b, x, c);
      ReachableWidens(a, b, c, y);
      ReachableThrough(a + b, |a + b|, x, c, y);
    }
  }

  lemma PairIsWhole(e: Var, aid: Aid, v: Var, bindings: seq<Binding>)
    requires e != v && bindings != [] && bindings[0] == Attribute(e, aid, v)
    requires ToSet(AllVariables(bindings)) <= {e, v}
    ensures Whole(bindings)
  {
    assert forall x :: x in AllVariables(bindings) ==> x in ToSet(AllVariables(bindings));
    var n := |bindings|;
    assert bindings[0].Variables() == [e, v];
    assert Linked(bindings, n, e, v) && Linked(bindings, n, v, e);
    assert IsPath(bindings, n, [e, v]) && IsPath(bindings, n, [v, e]) && IsPath(bindings, n, [e]) && IsPath(bindings, n, [v]);
    forall x, y | x in AllVariables(bindings) && y in AllVariables(bindings) ensures Reachable(bindings, n, [x], y) {
      var p := if x == y then [x] else [x, y];
      assert IsPath(bindings, n, p) && p[0] in [x] && p[|p| - 1] == y;
    }
  }

  /** A path through a source binding arrives at one of its variables, so from both
      of them everything can be reached without it. */
  lemma {:induction false} AvoidSource(bindings: seq<Binding>, source: nat, p: seq<Var>)
    requires source < |bindings| && bindings[source].Attribute?
    requires IsPath(bindings, |bindings|, p) && p[0] in bindings[source].Variables()
    ensures Reachable(bindings, source, bindings[source].Variables(), p[|p| - 1])
  {
    var from, n := bindings[source].Variables(), |p| - 1;
    if p[n] in from {
      assert IsPath(bindings, source, [p[n]]);
    } else {
      var front := p[..n];
      forall i | 0 <= i < |front| - 1 ensures Linked(bindings, |bindings|, front[i], front[i + 1]) {
        assert Linked(bindings, |bindings|, p[i], p[i + 1]);
      }
      AvoidSource(bindings, source, front);
      assert Linked(bindings, |bindings|, p[n - 1], p[n]);
      LinkAvoidsSource(bindings, source, p[n - 1], p[n]);
      var q :| IsPath(bindings, source, q) && q[0] in from && q[|q| - 1] == p[n - 1];
      ExtendPath(bindings, source, q, p[n]);
    }
  }

  lemma LinkAvoidsSource(bindings: seq<Binding>, source: nat, x: Var, y: Var)
    requires source < |bindings| && Linked(bindings, |bindings|, x, y) && y !in bindings[source].Variables()
    ensures Linked(bindings, source, x, y)
  {
    var j :| 0 <= j < |bindings| && j != |bindings| && x != y && (bindings[j].Variables() == [x, y] || bindings[j].Variables() == [y, x]);
    var vs := bindings[j].Variables();
    assert vs[0] == y || vs[1] == y;
  }

  lemma ExtendPath(bindings: seq<Binding>, source: nat, p: seq<Var>, x: Var)
    requires IsPath(bindings, source, p) && Linked(bindings, source, p[|p| - 1], x)
    ensures IsPath(bindings, source, p + [x]) && (p + [x])[0] == p[0] && (p + [x])[|p|] == x
  {
    var q := p + [x];
    forall m | 0 <= m < |q| - 1 ensures Linked(bindings, source, q[m], q[m + 1]) {
      if m < |p| - 1 { assert Linked(bindings, source, p[m], p[m + 1]); }
    }
  }

  lemma WholeIsConnected(bindings: seq<Binding>, source: nat)
    requires source < |bindings| && bindings[source].Attribute? && Whole(bindings)
    ensures Connected(bindings, source)
  {
    var e := bindings[source].e;
    assert bindings[source].Variables()[0] == e;
    AllVariablesAre(bindings, e);
    forall x | x in AllVariables(bindings) ensures Reachable(bindings, source, bindings[source].Variables(), x) {
      var p :| IsPath(bindings, |bindings|, p) && p[0] in [e] && p[|p| - 1] == x;
      AvoidSource(bindings, source, p);
    }
  }

  //
  // The order
  //

  /** `b` links the new variable `target` to one already in the prefix. */
  ghost predicate Introduces(b: Binding, prefix: seq<Var>, target: Var) {
    b.CanExtend(prefix, target) && exists x :: x in b.Variables() && x in prefix
  }

  ghost predicate Introduced(bindings: seq<Binding>, source: nat, prefix: seq<Var>, target: Var) {
    exists j :: 0 <= j < |bindings| && j != source && Introduces(bindings[j], prefix, target)
  }

  ghost predicate GrowsFromSource(bindings: seq<Binding>, source: nat, order: seq<Var>)
    requires source < |bindings|
  {
    && bindings[source].Variables() <= order
    && Collections.Distinct(order)
    && (forall x :: x in order ==> x in AllVariables(bindings))
    && (forall k :: |bindings[source].Variables()| <= k < |order| ==>
          Introduced(bindings, source, order[..k], order[k]))
  }

  /** All variables of the query exactly once, the source's first, each later
      one linked by a non-source binding to an earlier one. */
  ghost predicate ValidOrder(bindings: seq<Binding>, source: nat, order: seq<Var>)
    requires source < |bindings|
  {
    && GrowsFromSource(bindings, source, order)
    && (forall x :: x in AllVariables(bindings) ==> x in order)
  }

  ghost predicate TouchesPrefix(b: Binding, prefix: seq<Var>) {
    exists x :: x in b.Variables() && x in prefix
  }

  /** Every non-source binding that touches the prefix is still pending or done. */
  ghost predicate Tracked(bindings: seq<Binding>, source: nat, prefix: seq<Var>, pending: seq<Binding>, done: seq<Binding>) {
    forall j :: 0 <= j < |bindings| && j != source && TouchesPrefix(bindings[j], prefix) ==>
      bindings[j] in pending || bindings[j] in done
  }

  ghost predicate Pending(bindings: seq<Binding>, source: nat, prefix: seq<Var>, candidates: seq<Binding>) {
    forall b :: b in candidates ==> Other(bindings, source, b) && TouchesPrefix(b, prefix)
  }

  ghost predicate AllBound(done: seq<Binding>, prefix: seq<Var>) {
    forall b, x :: b in done && x in b.Variables() ==> x in prefix
  }

  lemma ReadyLeavesAllBound(b: Binding, prefix: seq<Var>)
    requires b.ReadyToExtend(prefix).Some?
    ensures forall x :: x in b.Variables() ==> x in prefix + [b.ReadyToExtend(prefix).value]
  {
    if b.Not? { ReadyLeavesAllBound(b.binding, prefix); }
  }

  lemma GrowBy(bindings: seq<Binding>, source: nat, prefix: seq<Var>, b: Binding)
    requires source < |bindings| && GrowsFromSource(bindings, source, prefix)
    requires Other(bindings, source, b) && TouchesPrefix(b, prefix) && b.ReadyToExtend(prefix).Some?
    ensures GrowsFromSource(bindings, source, prefix + [b.ReadyToExtend(prefix).value])
  {
    var target := b.ReadyToExtend(prefix).value;
    var order := prefix + [target];
    ReadyIsUnbound(b, prefix);
    AllVariablesAre(bindings, target);
    assert Introduced(bindings, source, prefix, target);
    forall k | |bindings[source].Variables()| <= k < |order| ensures Introduced(bindings, source, order[..k], order[k]) {
      assert order[..k] == prefix[..k];
      if k == |prefix| { assert prefix[..k] == prefix; }
    }
  }

  ghost predicate SomeReady(candidates: seq<Binding>, prefix: seq<Var>) {
    exists b :: b in candidates && b.ReadyToExtend(prefix).Some?
  }

  lemma SomeReadyAppend(candidates: seq<Binding>, b: Binding, prefix: seq<Var>)
    ensures SomeReady(candidates + [b], prefix) <==> SomeReady(candidates, prefix) || b.ReadyToExtend(prefix).Some?
  {
    if SomeReady(candidates, prefix) {
      var c :| c in candidates && c.ReadyToExtend(prefix).Some?;
      assert c in candidates + [b];
    }
    assert b in candidates + [b];
  }

  lemma PendingGrows(bindings: seq<Binding>, source: nat, prefix: seq<Var>, longer: seq<Var>, candidates: seq<Binding>)
    requires Pending(bindings, source, prefix, candidates) && prefix <= longer
    ensures Pending(bindings, source, longer, candidates)
  {
    forall b | b in candidates ensures TouchesPrefix(b, longer) {
      var x :| x in b.Variables() && x in prefix;
      assert x in longer;
    }
  }

  /** Taking a ready candidate keeps track of all bindings. */
  lemma TakeKeepsTrack(bindings: seq<Binding>, source: nat, prefix: seq<Var>, candidate: Binding, rest: seq<Binding>,
                       waiting: seq<Binding>, done: seq<Binding>)
    requires candidate.ReadyToExtend(prefix).Some?
    requires Tracked(bindings, source, prefix, [candidate] + rest + waiting, done)
    ensures var target := candidate.ReadyToExtend(prefix).value;
      var waiting' := AppendOthers(waiting, candidate, CandidatesFor(bindings, source, target));
      Tracked(bindings, source, prefix + [target], rest + waiting', done + [candidate])
  {
    var target := candidate.ReadyToExtend(prefix).value;
    var news := CandidatesFor(bindings, source, target);
    var waiting' := AppendOthers(waiting, candidate, news);
    CandidatesForAre(bindings, source, target, 0);
    forall j | 0 <= j < |bindings| && j != source && TouchesPrefix(bindings[j], prefix + [target])
      ensures bindings[j] in rest + waiting' || bindings[j] in done + [candidate]
    {
      if TouchesPrefix(bindings[j], prefix) {
        assert bindings[j] in [candidate] + rest + waiting || bindings[j] in done;
      } else {
        assert target in bindings[j].Variables();
      }
    }
  }

  lemma TakeKeepsPending(bindings: seq<Binding>, source: nat, prefix: seq<Var>, candidate: Binding,
                         waiting: seq<Binding>)
    requires candidate.ReadyToExtend(prefix).Some?
    requires Pending(bindings, source, prefix, waiting)
    ensures var target := candidate.ReadyToExtend(prefix).value;
      Pending(bindings, source, prefix + [target],
              AppendOthers(waiting, candidate, CandidatesFor(bindings, source, target)))
  {
    var target := candidate.ReadyToExtend(prefix).value;
    CandidatesForAre(bindings, source, target, 0);
    PendingGrows(bindings, source, prefix, prefix + [target], waiting);
    assert target in prefix + [target];
  }

  /** Where a round stands after its first candidates `seen`. */
  ghost predicate RoundState(bindings: seq<Binding>, source: nat, prefix0: seq<Var>, seen: seq<Binding>, unseen: seq<Binding>,
                             done0: seq<Binding>, prefix: seq<Var>, waiting: seq<Binding>, done: seq<Binding>)
    requires source < |bindings|
  {
    && GrowsFromSource(bindings, source, prefix)
    && Pending(bindings, source, prefix, waiting) && Pending(bindings, source, prefix, unseen)
    && Tracked(bindings, source, prefix, unseen + waiting, done)
    && AllBound(done, prefix) && (forall b :: b in done ==> b in done0 || b in seen)
    && prefix0 <= prefix
    && (prefix == prefix0 ==> waiting == seen && done == done0)
    && (prefix != prefix0 <==> SomeReady(seen, prefix0))
  }

  lemma RoundWaits(bindings: seq<Binding>, source: nat, prefix0: seq<Var>, seen: seq<Binding>, b: Binding, unseen: seq<Binding>,
                   done0: seq<Binding>, prefix: seq<Var>, waiting: seq<Binding>, done: seq<Binding>)
    requires source < |bindings|
    requires RoundState(bindings, source, prefix0, seen, [b] + unseen, done0, prefix, waiting, done)
    requires b.ReadyToExtend(prefix).None?
    ensures RoundState(bindings, source, prefix0, seen + [b], unseen, done0, prefix, waiting + [b], done)
  {
    SomeReadyAppend(seen, b, prefix0);
    assert b in [b] + unseen;
    forall c | c in unseen ensures c in [b] + unseen {}
  }

  lemma RoundTakes(bindings: seq<Binding>, source: nat, prefix0: seq<Var>, seen: seq<Binding>, b: Binding, unseen: seq<Binding>,
                   done0: seq<Binding>, prefix: seq<Var>, waiting: seq<Binding>, done: seq<Binding>)
    requires source < |bindings|
    requires RoundState(bindings, source, prefix0, seen, [b] + unseen, done0, prefix, waiting, done)
    requires b.ReadyToExtend(prefix).Some?
    ensures var target := b.ReadyToExtend(prefix).value;
      RoundState(bindings, source, prefix0, seen + [b], unseen, done0, prefix + [target],
                 AppendOthers(waiting, b, CandidatesFor(bindings, source, target)), done + [b])
  {
    var target := b.ReadyToExtend(prefix).value;
    SomeReadyAppend(seen, b, prefix0);
    assert b in [b] + unseen;
    forall c | c in unseen ensures c in [b] + unseen {}
    GrowBy(bindings, source, prefix, b);
    ReadyLeavesAllBound(b, prefix);
    TakeKeepsTrack(bindings, source, prefix, b, unseen, waiting, done);
    TakeKeepsPending(bindings, source, prefix, b, waiting);
    PendingGrows(bindings, source, prefix, prefix + [target], unseen);
  }

  /** The prefix so far, the bindings that wait, and those that are done. */
  datatype Planning = Planning(prefix: seq<Var>, waiting: seq<Binding>, done: seq<Binding>)

  function Visit(bindings: seq<Binding>, source: nat, p: Planning, candidate: Binding): Planning {
    match candidate.ReadyToExtend(p.prefix)
    case None => p.(waiting := p.waiting + [candidate])
    case Some(target) =>
      if Position(p.prefix, target).Some? then p.(done := p.done + [candidate])
      else Planning(p.prefix + [target], AppendOthers(p.waiting, candidate, CandidatesFor(bindings, source, target)), p.done + [candidate])
  }

  /** The state after visiting all candidates in order. */
  function VisitAll(bindings: seq<Binding>, source: nat, p: Planning, candidates: seq<Binding>): Planning {
    if candidates == [] then p
    else
      var n := |candidates| - 1;
      Visit(bindings, source, VisitAll(bindings, source, p, candidates[..n]), candidates[n])
  }

  ghost predicate Sound(bindings: seq<Binding>, source: nat, p: Planning)
    requires source < |bindings|
  {
    && GrowsFromSource(bindings, source, p.prefix) && Pending(bindings, source, p.prefix, p.waiting)
    && Tracked(bindings, source, p.prefix, p.waiting, p.done) && AllBound(p.done, p.prefix)
    && (forall b :: b in p.done ==> Other(bindings, source, b))
  }

  lemma VisitKeeps(bindings: seq<Binding>, source: nat, prefix0: seq<Var>, seen: seq<Binding>, b: Binding, unseen: seq<Binding>,
                   done0: seq<Binding>, p: Planning)
    requires source < |bindings|
    requires RoundState(bindings, source, prefix0, seen, [b] + unseen, done0, p.prefix, p.waiting, p.done)
    ensures var r := Visit(bindings, source, p, b);
      RoundState(bindings, source, prefix0, seen + [b], unseen, done0, r.prefix, r.waiting, r.done)
  {
    ReadyIsUnbound(b, p.prefix);
    if b.ReadyToExtend(p.prefix).None? {
      RoundWaits(bindings, source, prefix0, seen, b, unseen, done0, p.prefix, p.waiting, p.done);
    } else {
      RoundTakes(bindings, source, prefix0, seen, b, unseen, done0, p.prefix, p.waiting, p.done);
    }
  }

  /** Where a round over the candidates stands after the first `k` of them. */
  ghost predicate RoundAt(bindings: seq<Binding>, source: nat, p: Planning, k: nat)
    requires source < |bindings| && k <= |p.waiting|
  {
    var r := VisitAll(bindings, source, p.(waiting := []), p.waiting[..k]);
    RoundState(bindings, source, p.prefix, p.waiting[..k], p.waiting[k..], p.done, r.prefix, r.waiting, r.done)
  }

  lemma RoundStarts(bindings: seq<Binding>, source: nat, p: Planning)
    requires source < |bindings| && Sound(bindings, source, p)
    ensures RoundAt(bindings, source, p, 0)
  {
    assert p.waiting[0..] == p.waiting && p.waiting + [] == p.waiting && p.waiting[..0] == [];
  }

  lemma RoundOneMore(bindings: seq<Binding>, source: nat, p: Planning, k: nat)
    requires source < |bindings| && k < |p.waiting| && RoundAt(bindings, source, p, k)
    ensures RoundAt(bindings, source, p, k + 1)
  {
    var seen, candidate := p.waiting[..k], p.waiting[k];
    var r := VisitAll(bindings, source, p.(waiting := []), seen);
    assert p.waiting[k..] == [candidate] + p.waiting[k + 1..];
    assert p.waiting[..k + 1] == seen + [candidate] && p.waiting[..k + 1][..k] == seen;
    VisitKeeps(bindings, source, p.prefix, seen, candidate, p.waiting[k + 1..], p.done, r);
  }

  lemma {:induction false} VisitsReach(bindings: seq<Binding>, source: nat, p: Planning, k: nat)
    requires source < |bindings| && Sound(bindings, source, p) && k <= |p.waiting|
    ensures RoundAt(bindings, source, p, k)
  {
    if k == 0 {
      RoundStarts(bindings, source, p);
    } else {
      VisitsReach(bindings, source, p, k - 1);
      RoundOneMore(bindings, source, p, k - 1);
    }
  }

  /** A round over sound candidates is sound again. Every ready candidate grows
      the prefix; if none is ready the round leaves everything as it was. */
  lemma RoundIsSound(bindings: seq<Binding>, source: nat, p: Planning)
    requires source < |bindings| && Sound(bindings, source, p)
    ensures var r := VisitAll(bindings, source, p.(waiting := []), p.waiting);
      && Sound(bindings, source, r) && p.prefix <= r.prefix
      && (r.prefix != p.prefix <==> SomeReady(p.waiting, p.prefix))
      && (r.prefix == p.prefix ==> r == p)
  {
    VisitsReach(bindings, source, p, |p.waiting|);
    var r := VisitAll(bindings, source, p.(waiting := []), p.waiting);
    assert p.waiting[..|p.waiting|] == p.waiting && p.waiting[|p.waiting|..] + r.waiting == r.waiting;
    forall b | b in r.done ensures Other(bindings, source, b) {}
  }

  /** One round over the candidates. */
  method Round(bindings: seq<Binding>, source: nat, prefix0: seq<Var>, candidates: seq<Binding>, done0: seq<Binding>)
    returns (prefix: seq<Var>, waiting: seq<Binding>, done: seq<Binding>)
    ensures Planning(prefix, waiting, done) == VisitAll(bindings, source, Planning(prefix0, [], done0), candidates)
  {
    prefix, waiting, done := prefix0, [], done0;
    for k := 0 to |candidates|
      invariant Planning(prefix, waiting, done) == VisitAll(bindings, source, Planning(prefix0, [], done0), candidates[..k])
    {
      var candidate := candidates[k];
      assert candidates[..k + 1][..k] == candidates[..k];
      match candidate.ReadyToExtend(prefix) {
        case None =>
          waiting := waiting + [candidate];
        case Some(target) =>
          if Position(prefix, target).None? {
            prefix := prefix + [target];
            waiting := AppendOthers(waiting, candidate, CandidatesFor(bindings, source, target));
          }
          done := done + [candidate];
      }
    }
    assert candidates[..|candidates|] == candidates;
  }

  function AppendOthers(waiting: seq<Binding>, candidate: Binding, news: seq<Binding>): (r: seq<Binding>)
    ensures forall b :: b in r <==> b in waiting || (b in news && b != candidate)
    decreases |news|
  {
    if news == [] then waiting
    else
      assert news == [news[0]] + news[1..];
      AppendOthers(if candidate != news[0] then waiting + [news[0]] else waiting, candidate, news[1..])
  }

  ghost function ToSet<X>(xs: seq<X>): set<X> { set x | x in xs }

  lemma {:induction false} DistinctSize<X>(xs: seq<X>)
    requires Collections.Distinct(xs)
    ensures |ToSet(xs)| == |xs|
  {
    if xs != [] {
      DistinctSize(xs[1..]);
      assert xs[0] !in xs[1..];
      assert ToSet(xs) == {xs[0]} + ToSet(xs[1..]);
    }
  }

  lemma SubsetSize<X>(a: set<X>, b: set<X>)
    requires a <= b
    ensures |a| <= |b| && (|a| == |b| ==> a == b)
  {
    assert b == a + (b - a);
  }

  predicate Smaller(x: Var, y: Var) { x < y }

  /** All variables of a query, sorted and without duplicates. */
  function QueryVariables(bindings: seq<Binding>): seq<Var> {
    Sorting.Dedup(Sorting.Sort(AllVariables(bindings), Smaller))
  }

  /** A distinct list of query variables is full exactly when it is as long as
      the sorted and deduplicated list of all of them. */
  lemma FullIffAsLong(bindings: seq<Binding>, prefix: seq<Var>)
    requires Collections.Distinct(prefix) && forall x :: x in prefix ==> x in AllVariables(bindings)
    ensures var variables := QueryVariables(bindings);
      && |prefix| <= |variables|
      && (|prefix| == |variables| <==> forall x :: x in AllVariables(bindings) ==> x in prefix)
  {
    var all, variables := AllVariables(bindings), QueryVariables(bindings);
    Sorting.SortedDedup(all, Smaller);
    forall i, j | 0 <= i < j < |variables| ensures variables[i] != variables[j] { assert Smaller(variables[i], variables[j]); }
    DistinctSize(variables);
    DistinctSize(prefix);
    assert ToSet(variables) == ToSet(all);
    SubsetSize(ToSet(prefix), ToSet(variables));
    if forall x :: x in all ==> x in prefix { assert ToSet(prefix) == ToSet(variables); }
    if |prefix| == |variables| {
      forall x | x in all ensures x in prefix { assert x in ToSet(all); }
    }
  }

  /** While a reachable variable is missing, some pending candidate is ready. */
  lemma ReachableMakesProgress(bindings: seq<Binding>, source: nat, prefix: seq<Var>, candidates: seq<Binding>, done: seq<Binding>, x: Var)
    requires source < |bindings| && AllProper(bindings) && GrowsFromSource(bindings, source, prefix)
    requires Tracked(bindings, source, prefix, candidates, done) && AllBound(done, prefix)
    requires Reachable(bindings, source, bindings[source].Variables(), x) && x !in prefix
    ensures SomeReady(candidates, prefix)
  {
    var p :| IsPath(bindings, source, p) && p[0] in bindings[source].Variables() && p[|p| - 1] == x;
    assert p[0] in prefix;
    var j := PathCrosses(bindings, source, prefix, p);
    ReadyIsUnbound(bindings[j], prefix);
    assert TouchesPrefix(bindings[j], prefix);
    assert bindings[j] !in done;
  }

  /** If the prefix is not full some pending candidate is ready. */
  lemma ConnectedMakesProgress(bindings: seq<Binding>, source: nat, prefix: seq<Var>, candidates: seq<Binding>, done: seq<Binding>)
    requires source < |bindings| && AllProper(bindings) && Connected(bindings, source)
    requires GrowsFromSource(bindings, source, prefix)
    requires Tracked(bindings, source, prefix, candidates, done) && AllBound(done, prefix)
    requires exists x :: x in AllVariables(bindings) && x !in prefix
    ensures SomeReady(candidates, prefix)
  {
    var x :| x in AllVariables(bindings) && x !in prefix;
    ReachableMakesProgress(bindings, source, prefix, candidates, done, x);
  }

  function SortedCandidates(candidates: seq<Binding>): seq<Binding> {
    Sorting.Dedup(Sorting.Sort(candidates, BindingLess))
  }

  lemma SortingIsSound(bindings: seq<Binding>, source: nat, p: Planning)
    requires source < |bindings| && Sound(bindings, source, p)
    ensures Sound(bindings, source, p.(waiting := SortedCandidates(p.waiting)))
  {
    Sorting.SortKeepsElements(p.waiting, BindingLess);
    Sorting.DedupKeepsElements(Sorting.Sort(p.waiting, BindingLess));
  }

  lemma StartIsTracked(bindings: seq<Binding>, source: nat)
    requires source < |bindings| && bindings[source].Attribute? && bindings[source].Proper()
    ensures var e, v := bindings[source].e, bindings[source].v;
      var candidates := CandidatesFor(bindings, source, e) + CandidatesFor(bindings, source, v);
      && GrowsFromSource(bindings, source, [e, v])
      && Pending(bindings, source, [e, v], candidates)
      && Tracked(bindings, source, [e, v], candidates, [])
  {
    var e, v := bindings[source].e, bindings[source].v;
    assert bindings[source].Variables()[0] == e && bindings[source].Variables()[1] == v;
    CandidatesForAre(bindings, source, e, 0);
    CandidatesForAre(bindings, source, v, 0);
    AllVariablesAre(bindings, e);
    AllVariablesAre(bindings, v);
    assert [e, v][0] == e && [e, v][1] == v;
  }

  /** In a full prefix every non-source binding is pending or done. */
  lemma FullPrefixTracksAll(bindings: seq<Binding>, source: nat, prefix: seq<Var>, candidates: seq<Binding>, done: seq<Binding>)
    requires Tracked(bindings, source, prefix, candidates, done)
    requires forall x :: x in AllVariables(bindings) ==> x in prefix
    ensures forall j :: 0 <= j < |bindings| && j != source ==> bindings[j] in done + candidates
  {
    forall j | 0 <= j < |bindings| && j != source ensures bindings[j] in done + candidates {
      var x := FirstVariable(bindings[j]);
      AllVariablesAre(bindings, x);
      assert TouchesPrefix(bindings[j], prefix);
    }
  }

  function FirstVariable(b: Binding): (x: Var)
    ensures x in b.Variables()
  {
    if b.Not? then FirstVariable(b.binding) else b.Variables()[0]
  }

  function Start(source: nat, bindings: seq<Binding>): Planning
    requires source < |bindings| && bindings[source].Attribute?
  {
    var e, v := bindings[source].e, bindings[source].v;
    Planning([e, v], CandidatesFor(bindings, source, e) + CandidatesFor(bindings, source, v), [])
  }

  function NextRound(source: nat, bindings: seq<Binding>, p: Planning): Planning {
    VisitAll(bindings, source, p.(waiting := []), SortedCandidates(p.waiting))
  }

  function AfterRounds(source: nat, bindings: seq<Binding>, n: nat): Planning
    requires source < |bindings| && bindings[source].Attribute?
  {
    if n == 0 then Start(source, bindings) else NextRound(source, bindings, AfterRounds(source, bindings, n - 1))
  }

  /** Nothing waits any longer, or the prefix is as long as it can be. */
  predicate Settled(bindings: seq<Binding>, p: Planning) {
    p.waiting == [] || |p.prefix| == |QueryVariables(bindings)|
  }

  ghost predicate SettledAt(source: nat, bindings: seq<Binding>, n: nat)
    requires source < |bindings| && bindings[source].Attribute?
  {
    Settled(bindings, AfterRounds(source, bindings, n))
  }

  /** Planning stops after `n` rounds and not before. */
  ghost predicate StopsAfter(source: nat, bindings: seq<Binding>, n: nat)
    requires source < |bindings| && bindings[source].Attribute?
  {
    n > 0 && SettledAt(source, bindings, n) && forall m :: 0 < m < n ==> !SettledAt(source, bindings, m)
  }

  /** The order that planning arrives at. */
  ghost predicate IsPlanned(source: nat, bindings: seq<Binding>, order: seq<Var>)
    requires source < |bindings| && bindings[source].Attribute?
  {
    exists n :: StopsAfter(source, bindings, n) && order == AfterRounds(source, bindings, n).prefix
  }

  lemma {:induction false} RoundsAreSound(source: nat, bindings: seq<Binding>, n: nat)
    requires source < |bindings| && bindings[source].Attribute? && bindings[source].Proper()
    ensures Sound(bindings, source, AfterRounds(source, bindings, n))
  {
    if n == 0 {
      StartIsTracked(bindings, source);
    } else {
      var p := AfterRounds(source, bindings, n - 1);
      RoundsAreSound(source, bindings, n - 1);
      SortingIsSound(bindings, source, p);
      RoundIsSound(bindings, source, p.(waiting := SortedCandidates(p.waiting)));
    }
  }

  /** On connected queries every round grows the prefix until it is full. */
  lemma RoundGrows(source: nat, bindings: seq<Binding>, p: Planning)
    requires source < |bindings| && AllProper(bindings) && Connected(bindings, source)
    requires Sound(bindings, source, p)
    ensures var r := NextRound(source, bindings, p);
      && Sound(bindings, source, r) && |p.prefix| <= |r.prefix| <= |QueryVariables(bindings)|
      && (|p.prefix| < |QueryVariables(bindings)| ==> |p.prefix| < |r.prefix|)
      && (Settled(bindings, r) ==> forall x :: x in AllVariables(bindings) ==> x in r.prefix)
  {
    var sorted := p.(waiting := SortedCandidates(p.waiting));
    SortingIsSound(bindings, source, p);
    RoundIsSound(bindings, source, sorted);
    var r := NextRound(source, bindings, p);
    FullIffAsLong(bindings, p.prefix);
    FullIffAsLong(bindings, r.prefix);
    if |p.prefix| < |QueryVariables(bindings)| {
      ConnectedMakesProgress(bindings, source, sorted.prefix, sorted.waiting, sorted.done);
    }
    if |r.prefix| < |QueryVariables(bindings)| {
      ConnectedMakesProgress(bindings, source, r.prefix, r.waiting, r.done);
    }
  }

  lemma RoundAfter(source: nat, bindings: seq<Binding>, n: nat)
    requires source < |bindings| && bindings[source].Attribute? && AllProper(bindings) && Connected(bindings, source)
    ensures var p, r := AfterRounds(source, bindings, n), AfterRounds(source, bindings, n + 1);
      && r == NextRound(source, bindings, p) && Sound(bindings, source, r)
      && |p.prefix| <= |r.prefix| <= |QueryVariables(bindings)|
      && (|p.prefix| < |QueryVariables(bindings)| ==> |p.prefix| < |r.prefix|)
      && (Settled(bindings, r) ==> forall x :: x in AllVariables(bindings) ==> x in r.prefix)
  {
    RoundsAreSound(source, bindings, n);
    RoundGrows(source, bindings, AfterRounds(source, bindings, n));
  }

  /** The variable order of the pipeline driven by `source`, and an order of the
      other bindings. Terminates on connected queries; on others a round without
      a ready candidate repeats itself. */
  method PlanOrder(source: nat, bindings: seq<Binding>) returns (prefix: seq<Var>, ordered: seq<Binding>)
    requires source < |bindings| && bindings[source].Attribute?
    requires AllProper(bindings)
    requires Connected(bindings, source)
    ensures ValidOrder(bindings, source, prefix) && IsPlanned(source, bindings, prefix)
    ensures forall b :: b in ordered ==> Other(bindings, source, b)
    ensures forall j :: 0 <= j < |bindings| && j != source ==> bindings[j] in ordered
  {
    ghost var n;
    var candidates;
    prefix, candidates, ordered, n := RunRounds(source, bindings);
    PlannedIsValid(source, bindings, n);
    ordered := ordered + candidates;
  }

  ghost predicate UnsettledUpTo(source: nat, bindings: seq<Binding>, n: nat)
    requires source < |bindings| && bindings[source].Attribute?
  {
    forall m :: 0 < m <= n ==> !SettledAt(source, bindings, m)
  }

  /** Runs rounds until planning settles. */
  method RunRounds(source: nat, bindings: seq<Binding>)
    returns (prefix: seq<Var>, candidates: seq<Binding>, ordered: seq<Binding>, ghost n: nat)
    requires source < |bindings| && bindings[source].Attribute?
    requires AllProper(bindings) && Connected(bindings, source)
    ensures Planning(prefix, candidates, ordered) == AfterRounds(source, bindings, n) && StopsAfter(source, bindings, n)
  {
    var variables := QueryVariables(bindings);
    var e, v := bindings[source].e, bindings[source].v;
    prefix, ordered, n := [e, v], [], 0;
    candidates := CandidatesFor(bindings, source, e) + CandidatesFor(bindings, source, v);
    while true
      invariant Planning(prefix, candidates, ordered) == AfterRounds(source, bindings, n)
      invariant UnsettledUpTo(source, bindings, n)
      decreases |variables| - |prefix|
    {
      RoundLengthens(source, bindings, n);
      candidates := SortedCandidates(candidates);
      prefix, candidates, ordered := Round(bindings, source, prefix, candidates, ordered);
      n := n + 1;
      if candidates == [] { break; }
      if |prefix| == |variables| { break; }
    }
  }

  ghost function Length(source: nat, bindings: seq<Binding>, n: nat): nat
    requires source < |bindings| && bindings[source].Attribute?
  {
    |AfterRounds(source, bindings, n).prefix|
  }

  lemma RoundLengthens(source: nat, bindings: seq<Binding>, n: nat)
    requires source < |bindings| && bindings[source].Attribute? && AllProper(bindings) && Connected(bindings, source)
    ensures AfterRounds(source, bindings, n + 1) == NextRound(source, bindings, AfterRounds(source, bindings, n))
    ensures Length(source, bindings, n) <= Length(source, bindings, n + 1) <= |QueryVariables(bindings)|
    ensures Length(source, bindings, n) < |QueryVariables(bindings)| ==> Length(source, bindings, n) < Length(source, bindings, n + 1)
  {
    RoundAfter(source, bindings, n);
  }

  /** Where planning stops, the order is valid and no binding was lost. */
  lemma PlannedIsValid(source: nat, bindings: seq<Binding>, n: nat)
    requires source < |bindings| && bindings[source].Attribute? && AllProper(bindings) && Connected(bindings, source)
    requires StopsAfter(source, bindings, n)
    ensures var p := AfterRounds(source, bindings, n);
      && ValidOrder(bindings, source, p.prefix) && IsPlanned(source, bindings, p.prefix)
      && (forall b :: b in p.done + p.waiting ==> Other(bindings, source, b))
      && (forall j :: 0 <= j < |bindings| && j != source ==> bindings[j] in p.done + p.waiting)
  {
    RoundAfter(source, bindings, n - 1);
    var p := AfterRounds(source, bindings, n);
    FullPrefixTracksAll(bindings, source, p.prefix, p.waiting, p.done);
  }

  //
  // Connected queries are those that have a valid order
  //

  lemma IntroducedIsLinked(bindings: seq<Binding>, source: nat, prefix: seq<Var>, target: Var) returns (x: Var)
    requires AllProper(bindings) && Introduced(bindings, source, prefix, target)
    ensures x in prefix && Linked(bindings, source, x, target)
  {
    var j :| 0 <= j < |bindings| && j != source && Introduces(bindings[j], prefix, target);
    var b := bindings[j];
    x :| x in b.Variables() && x in prefix;
    ReadyIffLastVariable(b, prefix, target);
    PairOfVariables(b, x, target);
  }

  lemma PairOfVariables(b: Binding, x: Var, y: Var)
    requires x in b.Variables() && y in b.Variables() && x != y
    ensures b.Variables() == [x, y] || b.Variables() == [y, x]
  {
    if b.Not? { PairOfVariables(b.binding, x, y); }
  }

  lemma {:induction false} OrderConnects(bindings: seq<Binding>, source: nat, order: seq<Var>, k: nat)
    requires source < |bindings| && bindings[source].Attribute? && AllProper(bindings)
    requires GrowsFromSource(bindings, source, order) && k < |order|
    ensures Reachable(bindings, source, bindings[source].Variables(), order[k])
    decreases k
  {
    var from := bindings[source].Variables();
    if k < |from| {
      assert order[k] == from[k] && IsPath(bindings, source, [order[k]]);
    } else {
      var x := IntroducedIsLinked(bindings, source, order[..k], order[k]);
      var i :| 0 <= i < k && order[i] == x;
      OrderConnects(bindings, source, order, i);
      var p :| IsPath(bindings, source, p) && p[0] in from && p[|p| - 1] == x;
      ExtendPath(bindings, source, p, order[k]);
    }
  }

  lemma UnsettledIsShort(source: nat, bindings: seq<Binding>, n: nat)
    requires source < |bindings| && bindings[source].Attribute? && AllProper(bindings) && Connected(bindings, source)
    requires !SettledAt(source, bindings, n + 1)
    ensures Length(source, bindings, n) < Length(source, bindings, n + 1) < |QueryVariables(bindings)|
  {
    RoundLengthens(source, bindings, n);
  }

  lemma {:induction false} PlanningSettles(source: nat, bindings: seq<Binding>, n: nat) returns (m: nat)
    requires source < |bindings| && bindings[source].Attribute? && AllProper(bindings) && Connected(bindings, source)
    ensures m > 0 && SettledAt(source, bindings, m)
    decreases |QueryVariables(bindings)| - Length(source, bindings, n)
  {
    m := n + 1;
    if !SettledAt(source, bindings, m) {
      UnsettledIsShort(source, bindings, n);
      m := PlanningSettles(source, bindings, m);
    }
  }

  /** Some valid order exists exactly if the query is connected to the source. */
  lemma ConnectedIffOrderable(source: nat, bindings: seq<Binding>)
    requires source < |bindings| && bindings[source].Attribute? && AllProper(bindings)
    ensures Connected(bindings, source) <==> exists order :: ValidOrder(bindings, source, order)
  {
    if Connected(bindings, source) {
      var m := PlanningSettles(source, bindings, 0);
      RoundAfter(source, bindings, m - 1);
      assert ValidOrder(bindings, source, AfterRounds(source, bindings, m).prefix);
    }
    if order :| ValidOrder(bindings, source, order) {
      forall x | x in AllVariables(bindings) ensures Reachable(bindings, source, bindings[source].Variables(), x) {
        var k :| 0 <= k < |order| && order[k] == x;
        OrderConnects(bindings, source, order, k);
      }
    }
  }

  ghost predicate Stuck(bindings: seq<Binding>, p: Planning) {
    !Settled(bindings, p) && !SomeReady(p.waiting, p.prefix)
  }

  lemma StuckRound(source: nat, bindings: seq<Binding>, p: Planning)
    requires source < |bindings| && Sound(bindings, source, p) && Stuck(bindings, p)
    ensures NextRound(source, bindings, p).prefix == p.prefix && Stuck(bindings, NextRound(source, bindings, p))
  {
    var sorted := p.(waiting := SortedCandidates(p.waiting));
    SortingIsSound(bindings, source, p);
    Sorting.SortKeepsElements(p.waiting, BindingLess);
    Sorting.DedupKeepsElements(Sorting.Sort(p.waiting, BindingLess));
    assert p.waiting[0] in sorted.waiting;
    RoundIsSound(bindings, source, sorted);
  }

  ghost predicate StuckAt(source: nat, bindings: seq<Binding>, prefix: seq<Var>, n: nat)
    requires source < |bindings| && bindings[source].Attribute?
  {
    Stuck(bindings, AfterRounds(source, bindings, n)) && AfterRounds(source, bindings, n).prefix == prefix
  }

  lemma StuckOneMore(source: nat, bindings: seq<Binding>, prefix: seq<Var>, n: nat)
    requires source < |bindings| && bindings[source].Attribute? && bindings[source].Proper()
    requires StuckAt(source, bindings, prefix, n)
    ensures StuckAt(source, bindings, prefix, n + 1)
  {
    RoundsAreSound(source, bindings, n);
    StuckRound(source, bindings, AfterRounds(source, bindings, n));
  }

  /** Planning that has unfinished candidates but no ready one never stops. */
  lemma {:induction false} StuckForever(source: nat, bindings: seq<Binding>, prefix: seq<Var>, n: nat, m: nat)
    requires source < |bindings| && bindings[source].Attribute? && bindings[source].Proper()
    requires n <= m && StuckAt(source, bindings, prefix, n)
    ensures StuckAt(source, bindings, prefix, m) && !Settled(bindings, AfterRounds(source, bindings, m))
    decreases m - n
  {
    if n < m {
      StuckOneMore(source, bindings, prefix, n);
      StuckForever(source, bindings, prefix, n + 1, m);
    }
  }

  //
  // When planning stops
  //

  /** All that planning can reach from the source. */
  ghost function ReachableVariables(source: nat, bindings: seq<Binding>): set<Var>
    requires source < |bindings|
  {
    set x | x in AllVariables(bindings) && Reachable(bindings, source, bindings[source].Variables(), x)
  }

  /** The different bindings, other than the source, that mention any of it. */
  ghost function ReachableBindings(source: nat, bindings: seq<Binding>): set<Binding>
    requires source < |bindings|
  {
    set j | 0 <= j < |bindings| && j != source && Mentions(bindings[j], ReachableVariables(source, bindings)) :: bindings[j]
  }

  ghost predicate Stops(source: nat, bindings: seq<Binding>)
    requires source < |bindings| && bindings[source].Attribute?
  {
    exists n :: StopsAfter(source, bindings, n)
  }

  /** The source brings two variables, and every other binding that can be
      reached is needed to introduce one more. */
  ghost predicate Frugal(source: nat, bindings: seq<Binding>)
    requires source < |bindings|
  {
    |ReachableBindings(source, bindings)| == |ReachableVariables(source, bindings)| - 2
  }

  ghost predicate Mentions(b: Binding, xs: set<Var>) {
    exists x :: x in b.Variables() && x in xs
  }

  /** Every done binding has introduced one variable and waits no longer. A
      candidate that already waits has all its variables bound. */
  ghost predicate Counted(p: Planning, unseen: seq<Binding>) {
    && Collections.Distinct(p.done) && |p.prefix| == |p.done| + 2
    && AllBound(p.done, p.prefix)
    && (forall b :: b in p.done ==> b !in p.waiting && b !in unseen)
    && Collections.Distinct(unseen)
    && (forall b :: b in unseen ==> TouchesPrefix(b, p.prefix) && (b in p.waiting ==> BoundBy(b, p.prefix)))
  }

  ghost predicate BoundBy(b: Binding, prefix: seq<Var>) {
    forall x :: x in b.Variables() ==> x in prefix
  }

  lemma TouchedAndIntroduced(b: Binding, prefix: seq<Var>, target: Var)
    requires TouchesPrefix(b, prefix) && target in b.Variables() && target !in prefix
    ensures BoundBy(b, prefix + [target])
  {
    var x :| x in b.Variables() && x in prefix;
    PairOfVariables(b, x, target);
    forall y | y in b.Variables() ensures y in prefix + [target] {
      assert y in [x, target];
    }
  }

  lemma CountedWaits(p: Planning, b: Binding, unseen: seq<Binding>)
    requires Counted(p, [b] + unseen)
    ensures Counted(p.(waiting := p.waiting + [b]), unseen)
  {
    assert b in [b] + unseen;
    assert forall c :: c in unseen ==> c in [b] + unseen;
    var all := [b] + unseen;
    forall i, j | 0 <= i < j < |unseen| ensures unseen[i] != unseen[j] { assert all[i + 1] != all[j + 1]; }
    forall c | c in unseen ensures c != b {
      var i :| 0 <= i < |unseen| && unseen[i] == c;
      assert all[0] != all[i + 1];
    }
  }

  lemma CountedTakes(bindings: seq<Binding>, source: nat, p: Planning, b: Binding, unseen: seq<Binding>)
    requires Counted(p, [b] + unseen) && b.ReadyToExtend(p.prefix).Some?
    ensures var target := b.ReadyToExtend(p.prefix).value;
      Counted(Planning(p.prefix + [target], AppendOthers(p.waiting, b, CandidatesFor(bindings, source, target)), p.done + [b]), unseen)
  {
    var target := b.ReadyToExtend(p.prefix).value;
    var news := CandidatesFor(bindings, source, target);
    var r := Planning(p.prefix + [target], AppendOthers(p.waiting, b, news), p.done + [b]);
    ReadyIsUnbound(b, p.prefix);
    ReadyLeavesAllBound(b, p.prefix);
    CandidatesForAre(bindings, source, target, 0);
    CountedWaits(p, b, unseen);
    assert b in [b] + unseen && b !in p.waiting;
    Collections.DistinctConcat(p.done, [b]);
    forall c | c in r.done ensures c !in r.waiting && c !in unseen {
      assert c in news ==> target in c.Variables();
    }
    forall c | c in unseen ensures TouchesPrefix(c, r.prefix) && (c in r.waiting ==> BoundBy(c, r.prefix)) {
      assert c in [b] + unseen;
      var x :| x in c.Variables() && x in p.prefix;
      assert x in r.prefix;
      if c in news { TouchedAndIntroduced(c, p.prefix, target); }
    }
  }

  lemma {:induction false} VisitsAreCounted(bindings: seq<Binding>, source: nat, p: Planning, candidates: seq<Binding>, k: nat)
    requires Counted(p, candidates) && k <= |candidates|
    ensures Counted(VisitAll(bindings, source, p, candidates[..k]), candidates[k..])
  {
    if k == 0 {
      assert candidates[..0] == [] && candidates[0..] == candidates;
    } else {
      VisitsAreCounted(bindings, source, p, candidates, k - 1);
      var b, r := candidates[k - 1], VisitAll(bindings, source, p, candidates[..k - 1]);
      assert candidates[k - 1..] == [b] + candidates[k..];
      assert candidates[..k][..k - 1] == candidates[..k - 1];
      ReadyIsUnbound(b, r.prefix);
      if b.ReadyToExtend(r.prefix).None? {
        CountedWaits(r, b, candidates[k..]);
      } else {
        CountedTakes(bindings, source, r, b, candidates[k..]);
      }
    }
  }

  lemma RoundIsCounted(source: nat, bindings: seq<Binding>, p: Planning)
    requires source < |bindings| && Sound(bindings, source, p) && Counted(p, [])
    ensures Counted(NextRound(source, bindings, p), [])
  {
    var sorted := SortedCandidates(p.waiting);
    BindingOrder();
    Sorting.SortedDedup(p.waiting, BindingLess);
    forall i, j | 0 <= i < j < |sorted| ensures sorted[i] != sorted[j] {
      assert BindingLess(sorted[i], sorted[j]);
      BindingLessTrichotomy(sorted[i], sorted[j]);
    }
    assert Counted(p.(waiting := []), sorted);
    VisitsAreCounted(bindings, source, p.(waiting := []), sorted, |sorted|);
    assert sorted[..|sorted|] == sorted && sorted[|sorted|..] == [];
  }

  ghost predicate CountedAt(source: nat, bindings: seq<Binding>, n: nat)
    requires source < |bindings| && bindings[source].Attribute?
  {
    Counted(AfterRounds(source, bindings, n), [])
  }

  lemma StartIsCounted(source: nat, bindings: seq<Binding>)
    requires source < |bindings| && bindings[source].Attribute?
    ensures CountedAt(source, bindings, 0)
  {
  }

  lemma CountedOneMore(source: nat, bindings: seq<Binding>, n: nat)
    requires source < |bindings| && bindings[source].Attribute? && bindings[source].Proper()
    requires CountedAt(source, bindings, n)
    ensures CountedAt(source, bindings, n + 1)
  {
    RoundsAreSound(source, bindings, n);
    RoundIsCounted(source, bindings, AfterRounds(source, bindings, n));
  }

  lemma {:induction false} RoundsAreCounted(source: nat, bindings: seq<Binding>, n: nat)
    requires source < |bindings| && bindings[source].Attribute? && bindings[source].Proper()
    ensures CountedAt(source, bindings, n)
  {
    if n == 0 {
      StartIsCounted(source, bindings);
    } else {
      RoundsAreCounted(source, bindings, n - 1);
      CountedOneMore(source, bindings, n - 1);
    }
  }

  lemma PrefixIsReachable(source: nat, bindings: seq<Binding>, prefix: seq<Var>)
    requires source < |bindings| && bindings[source].Attribute? && AllProper(bindings)
    requires GrowsFromSource(bindings, source, prefix)
    ensures ToSet(prefix) <= ReachableVariables(source, bindings)
    ensures |prefix| <= |ReachableVariables(source, bindings)|
  {
    forall x | x in prefix ensures x in ReachableVariables(source, bindings) {
      var k :| 0 <= k < |prefix| && prefix[k] == x;
      OrderConnects(bindings, source, prefix, k);
    }
    DistinctSize(prefix);
    SubsetSize(ToSet(prefix), ReachableVariables(source, bindings));
  }

  /** While something reachable is missing, some candidate is ready. */
  lemma MissingMakesProgress(source: nat, bindings: seq<Binding>, p: Planning)
    requires source < |bindings| && bindings[source].Attribute? && AllProper(bindings) && Sound(bindings, source, p)
    requires ToSet(p.prefix) != ReachableVariables(source, bindings)
    ensures SomeReady(p.waiting, p.prefix)
  {
    PrefixIsReachable(source, bindings, p.prefix);
    var x :| x in ReachableVariables(source, bindings) && x !in p.prefix;
    ReachableMakesProgress(bindings, source, p.prefix, p.waiting, p.done, x);
  }

  lemma MissingGrows(source: nat, bindings: seq<Binding>, p: Planning)
    requires source < |bindings| && bindings[source].Attribute? && AllProper(bindings) && Sound(bindings, source, p)
    requires ToSet(p.prefix) != ReachableVariables(source, bindings)
    ensures |p.prefix| < |NextRound(source, bindings, p).prefix|
  {
    var sorted := p.(waiting := SortedCandidates(p.waiting));
    SortingIsSound(bindings, source, p);
    MissingMakesProgress(source, bindings, sorted);
    RoundIsSound(bindings, source, sorted);
  }

  /** Sooner or later the prefix holds all that is reachable. */
  lemma {:induction false} ReachesAll(source: nat, bindings: seq<Binding>, n: nat) returns (m: nat)
    requires source < |bindings| && bindings[source].Attribute? && AllProper(bindings)
    ensures n <= m && ToSet(AfterRounds(source, bindings, m).prefix) == ReachableVariables(source, bindings)
    decreases |ReachableVariables(source, bindings)| - |AfterRounds(source, bindings, n).prefix|
  {
    var p := AfterRounds(source, bindings, n);
    m := n;
    if ToSet(p.prefix) != ReachableVariables(source, bindings) {
      RoundsAreSound(source, bindings, n);
      RoundsAreSound(source, bindings, n + 1);
      MissingGrows(source, bindings, p);
      assert AfterRounds(source, bindings, n + 1) == NextRound(source, bindings, p);
      PrefixIsReachable(source, bindings, AfterRounds(source, bindings, n + 1).prefix);
      m := ReachesAll(source, bindings, n + 1);
    }
  }

  lemma DoneOrWaiting(source: nat, bindings: seq<Binding>, p: Planning, b: Binding)
    requires source < |bindings| && Sound(bindings, source, p)
    requires ToSet(p.prefix) == ReachableVariables(source, bindings)
    ensures b in p.done || b in p.waiting <==> b in ReachableBindings(source, bindings)
  {
    var reached := ReachableVariables(source, bindings);
    assert forall x :: x in p.prefix <==> x in reached;
    if b in p.done {
      var x := FirstVariable(b);
      assert x in reached && Mentions(b, reached);
    }
    if b in p.waiting {
      var x :| x in b.Variables() && x in p.prefix;
      assert Mentions(b, reached);
    }
    if b in ReachableBindings(source, bindings) {
      var x :| x in b.Variables() && x in reached;
      assert TouchesPrefix(b, p.prefix);
    }
  }

  /** With all that is reachable in the prefix, nothing waits exactly if every
      reachable binding was needed to introduce a variable. */
  lemma NothingWaitsIff(source: nat, bindings: seq<Binding>, p: Planning)
    requires source < |bindings| && Sound(bindings, source, p) && Counted(p, [])
    requires ToSet(p.prefix) == ReachableVariables(source, bindings)
    ensures p.waiting == [] <==> Frugal(source, bindings)
  {
    var done, reached := ToSet(p.done), ReachableBindings(source, bindings);
    DistinctSize(p.done);
    DistinctSize(p.prefix);
    forall b ensures b in p.done || b in p.waiting <==> b in reached { DoneOrWaiting(source, bindings, p, b); }
    SubsetSize(done, reached);
    if p.waiting == [] {
      assert done == reached;
    } else {
      assert p.waiting[0] in reached && p.waiting[0] !in done;
    }
  }

  lemma {:induction false} FirstSettled(source: nat, bindings: seq<Binding>, m: nat) returns (n: nat)
    requires source < |bindings| && bindings[source].Attribute?
    requires m > 0 && SettledAt(source, bindings, m)
    ensures StopsAfter(source, bindings, n)
    decreases m
  {
    if k :| 0 < k < m && SettledAt(source, bindings, k) {
      n := FirstSettled(source, bindings, k);
    } else {
      n := m;
    }
  }

  lemma StopsOnlyIf(source: nat, bindings: seq<Binding>, n: nat)
    requires source < |bindings| && bindings[source].Attribute? && AllProper(bindings) && StopsAfter(source, bindings, n)
    ensures Connected(bindings, source) || Frugal(source, bindings)
  {
    var p := AfterRounds(source, bindings, n);
    RoundsAreSound(source, bindings, n);
    RoundsAreCounted(source, bindings, n);
    PrefixIsReachable(source, bindings, p.prefix);
    FullIffAsLong(bindings, p.prefix);
    if p.waiting == [] {
      if ToSet(p.prefix) != ReachableVariables(source, bindings) { MissingMakesProgress(source, bindings, p); }
      NothingWaitsIff(source, bindings, p);
    } else {
      forall x | x in AllVariables(bindings) ensures Reachable(bindings, source, bindings[source].Variables(), x) {
        assert x in ToSet(p.prefix);
      }
    }
  }

  /** Planning stops exactly on queries that are connected to the source, and on
      those where every binding that can be reached is needed to introduce a
      variable. On all others it runs forever. */
  lemma PlanningStopsIff(source: nat, bindings: seq<Binding>)
    requires source < |bindings| && bindings[source].Attribute? && AllProper(bindings)
    ensures Stops(source, bindings) <==> Connected(bindings, source) || Frugal(source, bindings)
  {
    if n :| StopsAfter(source, bindings, n) { StopsOnlyIf(source, bindings, n); }
    if Connected(bindings, source) {
      var m := PlanningSettles(source, bindings, 0);
      var n := FirstSettled(source, bindings, m);
    } else if Frugal(source, bindings) {
      var m := ReachesAll(source, bindings, 1);
      RoundsAreSound(source, bindings, m);
      RoundsAreCounted(source, bindings, m);
      NothingWaitsIff(source, bindings, AfterRounds(source, bindings, m));
      var n := FirstSettled(source, bindings, m);
    }
  }

  /** Two attributes without a common variable, and constants on the first one. */
  ghost predicate AreIslands(bs: seq<Binding>) {
    && |bs| >= 2 && bs[0].Attribute? && bs[0].e == 0 && bs[0].v == 1 && bs[1].Attribute? && bs[1].e == 2 && bs[1].v == 3
    && forall j :: 2 <= j < |bs| ==> bs[j].Constant? && bs[j].variable == 0
  }

  lemma IslandLink(bs: seq<Binding>, x: Var, y: Var)
    requires AreIslands(bs) && Linked(bs, 0, x, y)
    ensures x > 1
  {
    var j :| 0 <= j < |bs| && j != 0 && x != y && (bs[j].Variables() == [x, y] || bs[j].Variables() == [y, x]);
    var vs := bs[j].Variables();
    assert x == vs[0] || x == vs[1];
  }

  lemma IslandReachable(bs: seq<Binding>, x: Var)
    requires AreIslands(bs)
    ensures Reachable(bs, 0, bs[0].Variables(), x) <==> x <= 1
  {
    var from := bs[0].Variables();
    assert from[0] == 0 && from[1] == 1 && |from| == 2;
    if x <= 1 {
      assert IsPath(bs, 0, [x]) && x == from[x];
    } else if Reachable(bs, 0, from, x) {
      var p :| IsPath(bs, 0, p) && p[0] in from && p[|p| - 1] == x;
      assert Linked(bs, 0, p[0], p[1]);
      IslandLink(bs, p[0], p[1]);
    }
  }

  lemma IslandVariable(bs: seq<Binding>, x: Var)
    requires AreIslands(bs) && x <= 2
    ensures x in AllVariables(bs)
  {
    AllVariablesAre(bs, x);
    if x < 2 { assert bs[0].Variables()[x] == x; } else { assert bs[1].Variables()[0] == x; }
  }

  lemma IslandsReach(bs: seq<Binding>)
    requires AreIslands(bs)
    ensures ReachableVariables(0, bs) == {0, 1} && !Connected(bs, 0)
  {
    forall x: Var ensures x in ReachableVariables(0, bs) <==> x <= 1 {
      IslandReachable(bs, x);
      if x <= 1 { IslandVariable(bs, x); }
    }
    IslandReachable(bs, 2);
    IslandVariable(bs, 2);
  }

  lemma IslandMentions(bs: seq<Binding>, j: nat)
    requires AreIslands(bs) && 0 < j < |bs|
    ensures Mentions(bs[j], {0, 1}) <==> j > 1
  {
    var vs := bs[j].Variables();
    if j > 1 { assert vs[0] == 0; } else { assert vs == [2, 3]; }
  }

  lemma IslandsAreFrugalIff(bs: seq<Binding>)
    requires AreIslands(bs)
    ensures Frugal(0, bs) <==> |bs| == 2
  {
    IslandsReach(bs);
    assert |{0, 1}| == 2;
    if |bs| > 2 {
      IslandMentions(bs, 2);
      assert bs[2] in ReachableBindings(0, bs);
    } else {
      IslandMentions(bs, 1);
      assert ReachableBindings(0, bs) == {};
    }
  }

  lemma IslandsAreProper(bs: seq<Binding>)
    requires AreIslands(bs)
    ensures AllProper(bs)
  {
  }

  /** On two islands planning stops, with the second one left out, exactly if
      there is no constant; a single one makes it run forever. */
  lemma IslandsStopIff(bs: seq<Binding>)
    requires AreIslands(bs)
    ensures Stops(0, bs) <==> |bs| == 2
    ensures !Connected(bs, 0)
  {
    IslandsReach(bs);
    IslandsAreProper(bs);
    IslandsAreFrugalIff(bs);
    PlanningStopsIff(0, bs);
  }

  /** A concrete query on which planning never stops. */
  lemma ConstantOnIslandLoops()
    ensures !Stops(0, [Attribute(0, "a", 1), Attribute(2, "b", 3), Constant(0, Eid(1))])
  {
    IslandsStopIff([Attribute(0, "a", 1), Attribute(2, "b", 3), Constant(0, Eid(1))]);
  }
}
