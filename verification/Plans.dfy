/** Query plans: executed directly, or rewritten to bindings for the delta join. */
module Plans {
  import opened Values
  import opened Bindings
  import opened Collections
  import opened Extenders
  import opened Indices
  import opened PlanOrders
  import opened Semantics
  import opened Pipelines
  import opened Hector
  import opened DeltaJoin
  import opened Relations

  datatype Plan =
    | Project(variables: seq<Var>, plan: Plan)
    | Join(variables: seq<Var>, left: Plan, right: Plan)
    | MatchA(e: Var, aid: Aid, v: Var)
    | MatchEA(eid: nat, aid: Aid, v: Var)
    | MatchAV(e: Var, aid: Aid, value: Value)
    | NameExpr(variables: seq<Var>, name: Aid)
  {
    /** The variables a plan is said to bind. */
    function Variables(): seq<Var> {
      match this
      case Project(xs, _) => xs
      case Join(xs, _, _) => xs
      case MatchA(e, _, v) => [e, v]
      case MatchEA(_, _, v) => [v]
      case MatchAV(e, _, _) => [e]
      case NameExpr(xs, _) => xs
    }

    /** Whether the rewrite to bindings is implemented for the plan. */
    predicate Rewritable() {
      match this
      case Project(_, p) => p.Rewritable()
      case Join(_, l, r) => l.Rewritable() && r.Rewritable()
      case NameExpr(_, _) => false
      case _ => true
    }
  }

  /** The attributes a plan matches on. */
  function AttributesIn(p: Plan): set<Aid> {
    match p
    case Project(_, inner) => AttributesIn(inner)
    case Join(_, l, r) => AttributesIn(l) + AttributesIn(r)
    case MatchA(_, aid, _) => {aid}
    case MatchEA(_, aid, _) => {aid}
    case MatchAV(_, aid, _) => {aid}
    case NameExpr(_, _) => {}
  }

  const SYMBOLS: nat := 0x1_0000_0000

  /** The next generated variable: a global counter, truncated to 32 bits. */
  function Symbol(sym: int): Var { sym % SYMBOLS }

  datatype Rewrite = Rewrite(bindings: seq<Binding>, sym: int)

  /** The bindings of a plan, and the counter after generating its variables. */
  function IntoBindings(p: Plan, sym: int): Rewrite
    requires p.Rewritable()
  {
    match p
    case Project(_, inner) => IntoBindings(inner, sym)
    case Join(_, l, r) =>
      var left := IntoBindings(l, sym);
      var right := IntoBindings(r, left.sym);
      Rewrite(left.bindings + right.bindings, right.sym)
    case MatchA(e, aid, v) => Rewrite([Attribute(e, aid, v)], sym)
    case MatchEA(eid, aid, v) => Rewrite([Attribute(Symbol(sym), aid, v), Constant(Symbol(sym), Eid(eid))], sym - 1)
    case MatchAV(e, aid, value) => Rewrite([Attribute(e, aid, Symbol(sym)), Constant(Symbol(sym), value)], sym - 1)
  }

  ghost function BoundVars(p: Plan, sym: int): set<Var>
    requires p.Rewritable()
  {
    ToSet(AllVariables(IntoBindings(p, sym).bindings))
  }

  //
  // Direct execution
  //

  function MatchEntity(pairs: seq<(Value, Value)>, e: Value): seq<(Value, Value)> {
    if pairs == [] then [] else (if pairs[0].0 == e then [pairs[0]] else []) + MatchEntity(pairs[1..], e)
  }

  function MatchValue(pairs: seq<(Value, Value)>, v: Value): seq<(Value, Value)> {
    if pairs == [] then [] else (if pairs[0].1 == v then [pairs[0]] else []) + MatchValue(pairs[1..], v)
  }

  /** Implements a plan as a relation over the current tuples. */
  function Direct(p: Plan, db: Database): Outcome<Relation> {
    match p
    case Project(xs, inner) =>
      (match Direct(inner, db)
       case Panic => Panic
       case Ok(relation) =>
         match ProjectRelation(relation, db, xs)
         case Panic => Panic
         case Ok(tuples) => Ok(CollectionRelation(xs, tuples)))
    case Join(xs, l, r) =>
      (match (Direct(l, db), Direct(r, db))
       case (Ok(left), Ok(right)) => JoinRelations(xs, left, right, db)
       case _ => Panic)
    case MatchA(e, aid, v) => Ok(AttributeRelation(e, aid, v))
    case MatchEA(eid, aid, v) =>
      var pairs := MatchEntity(PairsOf(db, aid), Eid(eid));
      if aid !in db then Panic else Ok(CollectionRelation([v], seq(|pairs|, i requires 0 <= i < |pairs| => [pairs[i].1])))
    case MatchAV(e, aid, value) =>
      var pairs := MatchValue(PairsOf(db, aid), value);
      if aid !in db then Panic else Ok(CollectionRelation([e], seq(|pairs|, i requires 0 <= i < |pairs| => [pairs[i].0])))
    case NameExpr(_, _) => Panic
  }

  /** Where a plan cannot be implemented: at patterns on attributes that do not
      exist, at projections and joins that fail, and at named expressions. */
  lemma DirectFailsIff(p: Plan, db: Database)
    ensures p.MatchA? ==> Direct(p, db) == Ok(AttributeRelation(p.e, p.aid, p.v))
    ensures p.MatchEA? || p.MatchAV? ==> (Direct(p, db).Panic? <==> p.aid !in db)
    ensures p.NameExpr? ==> Direct(p, db).Panic?
    ensures p.Project? ==> (Direct(p, db).Ok? <==> Direct(p.plan, db).Ok? && ProjectRelation(Direct(p.plan, db).value, db, p.variables).Ok?)
    ensures p.Join? ==>
      (Direct(p, db).Ok? <==>
        Direct(p.left, db).Ok? && Direct(p.right, db).Ok? && JoinRelations(p.variables, Direct(p.left, db).value, Direct(p.right, db).value, db).Ok?)
  {
  }

  /** The columns of the relation a plan is implemented as. */
  function Columns(p: Plan): seq<Var> {
    match p
    case Project(xs, _) => xs
    case Join(xs, l, r) =>
      if l.MatchA? && !r.MatchA? then JoinedVariables(xs, Columns(r), Columns(l))
      else JoinedVariables(xs, Columns(l), Columns(r))
    case MatchA(e, _, v) => [e, v]
    case MatchEA(_, _, v) => [v]
    case MatchAV(e, _, _) => [e]
    case NameExpr(xs, _) => xs
  }

  //
  // The fragment on which the rewrite preserves meaning
  //

  /** A projection the relation supports: attributes only project onto one or
      both of their variables. */
  predicate Projectable(p: Plan, xs: seq<Var>) {
    if p.MatchA? then xs in [[p.e, p.v], [p.v, p.e], [p.e], [p.v]] else AllBoundBy(xs, Columns(p))
  }

  /** Join variables are bound by both sides; between attributes there is one. */
  predicate JoinsOn(xs: seq<Var>, l: Plan, r: Plan) {
    && xs != [] && (l.MatchA? && r.MatchA? ==> |xs| == 1)
    && AllBoundBy(xs, Columns(l)) && AllBoundBy(xs, Columns(r))
  }

  ghost predicate SharesOnly(xs: seq<Var>, l: Plan, r: Plan, sym: int)
    requires l.Rewritable() && r.Rewritable()
  {
    forall x :: x in BoundVars(l, sym) && x in BoundVars(r, IntoBindings(l, sym).sym) ==> x in xs
  }

  /** Generated variables do not collide, join variables are bound by both sides,
      and no other variable occurs on both sides of a join. */
  ghost predicate InFragment(p: Plan, sym: int)
    requires p.Rewritable()
  {
    match p
    case Project(xs, inner) => InFragment(inner, sym) && Projectable(inner, xs)
    case Join(xs, l, r) =>
      && InFragment(l, sym) && InFragment(r, IntoBindings(l, sym).sym)
      && JoinsOn(xs, l, r) && SharesOnly(xs, l, r, sym)
    case MatchA(e, _, v) => e != v
    case MatchEA(_, _, v) => Symbol(sym) != v
    case MatchAV(e, _, _) => Symbol(sym) != e
  }

  /** The assignments behind the tuples of a plan, in the same order. */
  function Enumerate(p: Plan, sym: int, db: Database): seq<Assignment>
    requires p.Rewritable()
  {
    match p
    case Project(_, inner) => Enumerate(inner, sym, db)
    case Join(xs, l, r) =>
      var left, right := Enumerate(l, sym, db), Enumerate(r, IntoBindings(l, sym).sym, db);
      if l.MatchA? && !r.MatchA? then JoinRows(right, left, xs) else JoinRows(left, right, xs)
    case MatchA(e, aid, v) => PairRows(PairsOf(db, aid), e, v)
    case MatchEA(eid, aid, v) => PairRows(MatchEntity(PairsOf(db, aid), Eid(eid)), Symbol(sym), v)
    case MatchAV(e, aid, value) => PairRows(MatchValue(PairsOf(db, aid), value), e, Symbol(sym))
  }

  function PairRows(pairs: seq<(Value, Value)>, e: Var, v: Var): seq<Assignment> {
    seq(|pairs|, i requires 0 <= i < |pairs| => map[e := pairs[i].0, v := pairs[i].1])
  }

  //
  // Rows of a join
  //

  ghost predicate AllKeys(rows: seq<Assignment>, keys: set<Var>) {
    forall a :: a in rows ==> a.Keys == keys
  }

  lemma {:induction false} JoinRowAre(a: Assignment, r: seq<Assignment>, xs: seq<Var>)
    ensures forall c :: c in JoinRow(a, r, xs) <==> exists b :: b in r && Projected(a, xs) == Projected(b, xs) && c == a + b
  {
    if r != [] {
      JoinRowAre(a, r[1..], xs);
      assert r == [r[0]] + r[1..];
    }
  }

  ghost predicate Combines(l: seq<Assignment>, r: seq<Assignment>, xs: seq<Var>, c: Assignment) {
    exists a, b :: a in l && b in r && Projected(a, xs) == Projected(b, xs) && c == a + b
  }

  lemma CombinesSplits(l: seq<Assignment>, r: seq<Assignment>, xs: seq<Var>, c: Assignment)
    requires l != []
    ensures Combines(l, r, xs, c) <==> Combines([l[0]], r, xs, c) || Combines(l[1..], r, xs, c)
  {
    assert l == [l[0]] + l[1..];
    if Combines(l, r, xs, c) {
      var a, b :| a in l && b in r && Projected(a, xs) == Projected(b, xs) && c == a + b;
      if a != l[0] { assert a in l[1..]; }
    }
    assert forall a :: a in l[1..] ==> a in l;
  }

  lemma {:induction false} JoinRowsAre(l: seq<Assignment>, r: seq<Assignment>, xs: seq<Var>, c: Assignment)
    ensures c in JoinRows(l, r, xs) <==> Combines(l, r, xs, c)
  {
    if l != [] {
      JoinRowAre(l[0], r, xs);
      JoinRowsAre(l[1..], r, xs, c);
      CombinesSplits(l, r, xs, c);
    }
  }

  ghost function Restrict(a: Assignment, keys: set<Var>): Assignment {
    map x | x in a && x in keys :: a[x]
  }

  lemma ProjectedAgree(a: Assignment, b: Assignment, xs: seq<Var>, x: Var)
    requires Projected(a, xs) == Projected(b, xs) && x in xs
    ensures Lookup(a, x) == Lookup(b, x)
  {
    var i :| 0 <= i < |xs| && xs[i] == x;
    assert Projected(a, xs)[i] == Projected(b, xs)[i];
  }

  /** Two assignments that agree on what they share are recovered from their union. */
  lemma MergeSplits(a: Assignment, b: Assignment, xs: seq<Var>)
    requires Projected(a, xs) == Projected(b, xs)
    requires forall x :: x in a && x in b ==> x in xs
    ensures Restrict(a + b, a.Keys) == a && Restrict(a + b, b.Keys) == b && a + b == b + a
  {
    forall x | x in a && x in b ensures a[x] == b[x] { ProjectedAgree(a, b, xs, x); }
  }

  lemma SplitMerges(c: Assignment, l: set<Var>, r: set<Var>, xs: seq<Var>)
    requires c.Keys == l + r && forall x :: x in xs ==> x in l && x in r
    ensures var a, b := Restrict(c, l), Restrict(c, r);
      a.Keys == l && b.Keys == r && Projected(a, xs) == Projected(b, xs) && c == a + b
  {
  }

  lemma {:induction false} JoinRowDistinct(a: Assignment, r: seq<Assignment>, xs: seq<Var>, rkeys: set<Var>)
    requires Collections.Distinct(r) && AllKeys(r, rkeys)
    ensures Collections.Distinct(JoinRow(a, r, xs))
  {
    if r != [] {
      forall b | b in r[1..] ensures b in r {}
      JoinRowDistinct(a, r[1..], xs, rkeys);
      JoinRowAre(a, r[1..], xs);
      assert r[0] in r;
      if Projected(a, xs) == Projected(r[0], xs) {
        forall c | c in JoinRow(a, r[1..], xs) ensures c != a + r[0] {
          var b :| b in r[1..] && Projected(a, xs) == Projected(b, xs) && c == a + b;
          assert b.Keys == r[0].Keys;
          assert forall x :: x in b ==> c[x] == b[x];
          assert forall x :: x in r[0] ==> (a + r[0])[x] == r[0][x];
          assert b != r[0];
        }
        DistinctConcat([a + r[0]], JoinRow(a, r[1..], xs));
      }
    }
  }

  lemma {:induction false} JoinRowsDistinct(l: seq<Assignment>, r: seq<Assignment>, xs: seq<Var>, lkeys: set<Var>, rkeys: set<Var>)
    requires Collections.Distinct(l) && Collections.Distinct(r) && AllKeys(l, lkeys) && AllKeys(r, rkeys)
    requires forall x :: x in lkeys && x in rkeys ==> x in xs
    ensures Collections.Distinct(JoinRows(l, r, xs))
  {
    if l != [] {
      forall a | a in l[1..] ensures a in l {}
      assert l[0] in l;
      JoinRowsDistinct(l[1..], r, xs, lkeys, rkeys);
      JoinRowDistinct(l[0], r, xs, rkeys);
      JoinRowAre(l[0], r, xs);
      forall c | c in JoinRow(l[0], r, xs) ensures c !in JoinRows(l[1..], r, xs) {
        var b :| b in r && Projected(l[0], xs) == Projected(b, xs) && c == l[0] + b;
        MergeSplits(l[0], b, xs);
        JoinRowsAre(l[1..], r, xs, c);
        forall a', b' | a' in l[1..] && b' in r && Projected(a', xs) == Projected(b', xs) ensures c != a' + b' {
          MergeSplits(a', b', xs);
          assert a' != l[0];
        }
      }
      DistinctConcat(JoinRow(l[0], r, xs), JoinRows(l[1..], r, xs));
    }
  }

  //
  // Enumerated rows are the satisfying assignments
  //

  /** The database lists what the histories hold before `n`, each pair once. */
  ghost predicate Snapshot(db: Database, hs: Histories, n: nat) {
    forall aid: Aid ::
      && Collections.Distinct(PairsOf(db, aid))
      && (forall p :: p in PairsOf(db, aid) <==> CountBefore(HistoryOf(hs, aid), p, n) > 0)
  }

  lemma {:induction false} MatchedPairs(pairs: seq<(Value, Value)>, x: Value)
    ensures forall p :: p in MatchEntity(pairs, x) <==> p in pairs && p.0 == x
    ensures forall p :: p in MatchValue(pairs, x) <==> p in pairs && p.1 == x
    ensures Collections.Distinct(pairs) ==> Collections.Distinct(MatchEntity(pairs, x)) && Collections.Distinct(MatchValue(pairs, x))
  {
    if pairs != [] {
      MatchedPairs(pairs[1..], x);
      assert pairs == [pairs[0]] + pairs[1..];
      if Collections.Distinct(pairs) {
        assert pairs[0] !in pairs[1..];
        DistinctConcat([pairs[0]], MatchEntity(pairs[1..], x));
        DistinctConcat([pairs[0]], MatchValue(pairs[1..], x));
      }
    }
  }

  lemma PairRowsAre(pairs: seq<(Value, Value)>, e: Var, v: Var)
    requires e != v
    ensures AllKeys(PairRows(pairs, e, v), {e, v})
    ensures forall a: Assignment :: a in PairRows(pairs, e, v) <==> a.Keys == {e, v} && (Lookup(a, e), Lookup(a, v)) in pairs
    ensures Collections.Distinct(pairs) ==> Collections.Distinct(PairRows(pairs, e, v))
  {
    var rows := PairRows(pairs, e, v);
    forall a: Assignment | a.Keys == {e, v} && (Lookup(a, e), Lookup(a, v)) in pairs ensures a in rows {
      var i :| 0 <= i < |pairs| && pairs[i] == (Lookup(a, e), Lookup(a, v));
      assert rows[i] == a;
    }
    forall a | a in rows ensures a.Keys == {e, v} && (Lookup(a, e), Lookup(a, v)) in pairs {
      var i :| 0 <= i < |pairs| && rows[i] == a;
      assert pairs[i] == (Lookup(a, e), Lookup(a, v));
    }
    if Collections.Distinct(pairs) {
      forall i, j | 0 <= i < j < |rows| ensures rows[i] != rows[j] {
        assert rows[i][e] == pairs[i].0 && rows[i][v] == pairs[i].1;
        assert rows[j][e] == pairs[j].0 && rows[j][v] == pairs[j].1;
        assert pairs[i] != pairs[j];
      }
    }
  }

  lemma HoldsRestricted(b: Binding, a: Assignment, keys: set<Var>, hs: Histories, n: nat)
    requires forall x :: x in b.Variables() ==> x in keys
    ensures Holds(b, Restrict(a, keys), hs, n) == Holds(b, a, hs, n)
  {
    match b
    case Attribute(e, _, v) => assert b.Variables()[0] == e && b.Variables()[1] == v;
    case Not(inner) => HoldsRestricted(inner, a, keys, hs, n);
    case Constant(x, _) => assert b.Variables()[0] == x;
    case BinaryPredicate(_, x, y) => assert b.Variables()[0] == x && b.Variables()[1] == y;
  }

  lemma SatisfiesRestricted(bindings: seq<Binding>, a: Assignment, keys: set<Var>, hs: Histories, n: nat)
    requires ToSet(AllVariables(bindings)) <= keys
    ensures Satisfies(Restrict(a, keys), bindings, hs, n) == Satisfies(a, bindings, hs, n)
  {
    forall j | 0 <= j < |bindings| ensures Holds(bindings[j], Restrict(a, keys), hs, n) == Holds(bindings[j], a, hs, n) {
      forall x | x in bindings[j].Variables() ensures x in keys { AllVariablesAre(bindings, x); }
      HoldsRestricted(bindings[j], a, keys, hs, n);
    }
  }

  lemma SatisfiesConcat(a: Assignment, l: seq<Binding>, r: seq<Binding>, hs: Histories, n: nat)
    ensures Satisfies(a, l + r, hs, n) <==> Satisfies(a, l, hs, n) && Satisfies(a, r, hs, n)
  {
    var all := l + r;
    if Satisfies(a, all, hs, n) {
      forall j | 0 <= j < |l| ensures Holds(l[j], a, hs, n) { assert all[j] == l[j]; }
      forall j | 0 <= j < |r| ensures Holds(r[j], a, hs, n) { assert all[|l| + j] == r[j]; }
    }
  }

  /** The rows are exactly the assignments that satisfy the bindings, each once. */
  ghost predicate Enumerates(rows: seq<Assignment>, bindings: seq<Binding>, hs: Histories, n: nat) {
    && AllKeys(rows, ToSet(AllVariables(bindings)))
    && Collections.Distinct(rows)
    && (forall a: Assignment :: a in rows <==> a.Keys == ToSet(AllVariables(bindings)) && Satisfies(a, bindings, hs, n))
  }

  lemma JoinMember(l: seq<Assignment>, r: seq<Assignment>, lb: seq<Binding>, rb: seq<Binding>, xs: seq<Var>, hs: Histories, n: nat, c: Assignment)
    requires Enumerates(l, lb, hs, n) && Enumerates(r, rb, hs, n)
    requires forall x :: x in AllVariables(lb) && x in AllVariables(rb) ==> x in xs
    requires forall x :: x in xs ==> x in AllVariables(lb) && x in AllVariables(rb)
    ensures c in JoinRows(l, r, xs) <==> c.Keys == ToSet(AllVariables(lb)) + ToSet(AllVariables(rb)) && Satisfies(c, lb, hs, n) && Satisfies(c, rb, hs, n)
  {
    var lk, rk := ToSet(AllVariables(lb)), ToSet(AllVariables(rb));
    JoinRowsAre(l, r, xs, c);
    SatisfiesRestricted(lb, c, lk, hs, n);
    SatisfiesRestricted(rb, c, rk, hs, n);
    if c in JoinRows(l, r, xs) {
      var a, b :| a in l && b in r && Projected(a, xs) == Projected(b, xs) && c == a + b;
      MergeSplits(a, b, xs);
    }
    if c.Keys == lk + rk && Satisfies(c, lb, hs, n) && Satisfies(c, rb, hs, n) {
      SplitMerges(c, lk, rk, xs);
      assert Restrict(c, lk) in l && Restrict(c, rk) in r;
    }
  }

  lemma JoinEnumerates(l: seq<Assignment>, r: seq<Assignment>, lb: seq<Binding>, rb: seq<Binding>, xs: seq<Var>, hs: Histories, n: nat)
    requires Enumerates(l, lb, hs, n) && Enumerates(r, rb, hs, n)
    requires forall x :: x in AllVariables(lb) && x in AllVariables(rb) ==> x in xs
    requires forall x :: x in xs ==> x in AllVariables(lb) && x in AllVariables(rb)
    ensures Enumerates(JoinRows(l, r, xs), lb + rb, hs, n)
    ensures Enumerates(JoinRows(r, l, xs), lb + rb, hs, n)
  {
    AllVariablesConcat(lb, rb);
    var lk, rk, keys := ToSet(AllVariables(lb)), ToSet(AllVariables(rb)), ToSet(AllVariables(lb + rb));
    assert keys == lk + rk == rk + lk;
    JoinRowsDistinct(l, r, xs, lk, rk);
    JoinRowsDistinct(r, l, xs, rk, lk);
    forall c: Assignment
      ensures c in JoinRows(l, r, xs) <==> c.Keys == keys && Satisfies(c, lb + rb, hs, n)
      ensures c in JoinRows(r, l, xs) <==> c.Keys == keys && Satisfies(c, lb + rb, hs, n)
    {
      JoinMember(l, r, lb, rb, xs, hs, n, c);
      JoinMember(r, l, rb, lb, xs, hs, n, c);
      SatisfiesConcat(c, lb, rb, hs, n);
    }
  }

  lemma ColumnsAreBound(p: Plan, sym: int, x: Var)
    requires p.Rewritable() && InFragment(p, sym) && x in Columns(p)
    ensures x in AllVariables(IntoBindings(p, sym).bindings)
  {
    match p
    case Project(xs, inner) =>
      assert x in Columns(inner);
      ColumnsAreBound(inner, sym, x);
    case Join(xs, l, r) =>
      OthersAre(Columns(l), xs);
      OthersAre(Columns(r), xs);
      var left := IntoBindings(l, sym);
      AllVariablesConcat(left.bindings, IntoBindings(r, left.sym).bindings);
      if x in Columns(l) { ColumnsAreBound(l, sym, x); } else { ColumnsAreBound(r, left.sym, x); }
    case MatchA(e, aid, v) => AllVariablesAre([Attribute(e, aid, v)], x);
    case MatchEA(_, aid, v) =>
      var bs := IntoBindings(p, sym).bindings;
      assert bs[0].Variables()[1] == x;
      AllVariablesAre(bs, x);
    case MatchAV(e, aid, _) =>
      var bs := IntoBindings(p, sym).bindings;
      assert bs[0].Variables()[0] == x;
      AllVariablesAre(bs, x);
  }

  lemma MatchVariables(e: Var, aid: Aid, v: Var, c: Binding)
    requires c.Constant? && (c.variable == e || c.variable == v)
    ensures ToSet(AllVariables([Attribute(e, aid, v)])) == {e, v}
    ensures ToSet(AllVariables([Attribute(e, aid, v), c])) == {e, v}
  {
    var one, two := [Attribute(e, aid, v)], [Attribute(e, aid, v), c];
    assert one[1..] == [] && two[1..] == [c] && [c][1..] == [];
    assert AllVariables(one) == [e, v];
    assert AllVariables([c]) == [c.variable];
    assert AllVariables(two) == [e, v, c.variable];
  }

  lemma MatchEnumerates(pairs: seq<(Value, Value)>, e: Var, aid: Aid, v: Var, db: Database, hs: Histories, n: nat, bindings: seq<Binding>)
    requires e != v && Snapshot(db, hs, n) && Collections.Distinct(pairs)
    requires bindings == [Attribute(e, aid, v)] ||
      (|bindings| == 2 && bindings[0] == Attribute(e, aid, v) && bindings[1].Constant? && bindings[1].variable in {e, v})
    requires forall p :: p in pairs <==>
      (p in PairsOf(db, aid) && (|bindings| == 2 ==> (if bindings[1].variable == e then p.0 else p.1) == bindings[1].value))
    ensures Enumerates(PairRows(pairs, e, v), bindings, hs, n)
  {
    PairRowsAre(pairs, e, v);
    MatchVariables(e, aid, v, if |bindings| == 2 then bindings[1] else Constant(e, Bool(false)));
    assert |bindings| == 2 ==> bindings == [bindings[0], bindings[1]];
    forall a: Assignment
      ensures Satisfies(a, bindings, hs, n) <==> (Lookup(a, e), Lookup(a, v)) in pairs
    {
      assert Holds(bindings[0], a, hs, n) <==> (Lookup(a, e), Lookup(a, v)) in PairsOf(db, aid);
      if |bindings| == 2 {
        assert Satisfies(a, bindings, hs, n) <==> Holds(bindings[0], a, hs, n) && Holds(bindings[1], a, hs, n);
      }
    }
  }

  /** The assignments behind a plan are those that satisfy its bindings. */
  lemma {:induction false} EnumerateIsSatisfying(p: Plan, sym: int, db: Database, hs: Histories, n: nat)
    requires p.Rewritable() && InFragment(p, sym) && Snapshot(db, hs, n)
    ensures Enumerates(Enumerate(p, sym, db), IntoBindings(p, sym).bindings, hs, n)
    decreases p
  {
    match p
    case Project(_, inner) => EnumerateIsSatisfying(inner, sym, db, hs, n);
    case Join(xs, l, r) =>
      var left := IntoBindings(l, sym);
      EnumerateIsSatisfying(l, sym, db, hs, n);
      EnumerateIsSatisfying(r, left.sym, db, hs, n);
      forall x | x in xs ensures x in AllVariables(left.bindings) && x in AllVariables(IntoBindings(r, left.sym).bindings) {
        ColumnsAreBound(l, sym, x);
        ColumnsAreBound(r, left.sym, x);
      }
      JoinEnumerates(Enumerate(l, sym, db), Enumerate(r, left.sym, db), left.bindings, IntoBindings(r, left.sym).bindings, xs, hs, n);
    case MatchA(e, aid, v) =>
      MatchEnumerates(PairsOf(db, aid), e, aid, v, db, hs, n, IntoBindings(p, sym).bindings);
    case MatchEA(eid, aid, v) =>
      MatchedPairs(PairsOf(db, aid), Eid(eid));
      MatchEnumerates(MatchEntity(PairsOf(db, aid), Eid(eid)), Symbol(sym), aid, v, db, hs, n, IntoBindings(p, sym).bindings);
    case MatchAV(e, aid, value) =>
      MatchedPairs(PairsOf(db, aid), value);
      MatchEnumerates(MatchValue(PairsOf(db, aid), value), e, aid, Symbol(sym), db, hs, n, IntoBindings(p, sym).bindings);
  }

  lemma ReprojectRows(variables: seq<Var>, rows: seq<Assignment>, xs: seq<Var>)
    requires AllBoundBy(xs, variables)
    ensures ReprojectAll(variables, ProjectRows(rows, variables), xs) == ProjectRows(rows, xs)
  {
    forall i | 0 <= i < |rows| ensures Reprojected(variables, Projected(rows[i], variables), xs) == Projected(rows[i], xs) {}
  }

  lemma ProjectAttribute(e: Var, aid: Aid, v: Var, db: Database, rows: seq<Assignment>, xs: seq<Var>)
    requires Represents(AttributeRelation(e, aid, v), db, rows)
    requires xs in [[e, v], [v, e], [e], [v]]
    ensures ProjectRelation(AttributeRelation(e, aid, v), db, xs) == Ok(ProjectRows(rows, xs))
  {
    var rel := AttributeRelation(e, aid, v);
    var pairs := PairsOf(db, aid);
    assert |pairs| == |rel.Tuples(db)| == |rows|;
    forall i | 0 <= i < |rows| ensures pairs[i] == (Lookup(rows[i], e), Lookup(rows[i], v)) {
      var tuple := rel.Tuples(db)[i];
      assert tuple == [pairs[i].0, pairs[i].1] && tuple == Projected(rows[i], [e, v]);
      assert tuple[0] == Lookup(rows[i], e) && tuple[1] == Lookup(rows[i], v);
    }
    var out := ProjectRelation(rel, db, xs).value;
    forall i | 0 <= i < |rows| ensures out[i] == Projected(rows[i], xs) {}
    assert out == ProjectRows(rows, xs);
  }

  lemma PairRowsRepresented(pairs: seq<(Value, Value)>, e: Var, v: Var)
    requires e != v
    ensures ProjectRows(PairRows(pairs, e, v), [e, v]) == PairTuples(pairs, false)
    ensures ProjectRows(PairRows(pairs, e, v), [e]) == seq(|pairs|, i requires 0 <= i < |pairs| => [pairs[i].0])
    ensures ProjectRows(PairRows(pairs, e, v), [v]) == seq(|pairs|, i requires 0 <= i < |pairs| => [pairs[i].1])
  {
    var rows := PairRows(pairs, e, v);
    forall i | 0 <= i < |pairs|
      ensures Projected(rows[i], [e]) == [pairs[i].0] && Projected(rows[i], [v]) == [pairs[i].1]
      ensures Projected(rows[i], [e, v]) == [pairs[i].0, pairs[i].1]
    {
      assert Lookup(rows[i], e) == pairs[i].0 && Lookup(rows[i], v) == pairs[i].1;
    }
  }

  /** Direct execution produces the projections of the enumerated assignments. */
  lemma {:induction false} DirectRepresents(p: Plan, sym: int, db: Database, hs: Histories, n: nat)
    requires p.Rewritable() && InFragment(p, sym) && Snapshot(db, hs, n) && AttributesIn(p) <= db.Keys
    ensures Direct(p, db).Ok?
    ensures var rel := Direct(p, db).value;
      rel.Variables() == Columns(p) && (rel.AttributeRelation? <==> p.MatchA?) && Represents(rel, db, Enumerate(p, sym, db))
    decreases p
  {
    match p
    case Project(xs, inner) =>
      DirectRepresents(inner, sym, db, hs, n);
      var rel, rows := Direct(inner, db).value, Enumerate(inner, sym, db);
      if inner.MatchA? {
        ProjectAttribute(inner.e, inner.aid, inner.v, db, rows, xs);
      } else {
        ReprojectRows(rel.variables, rows, xs);
      }
    case Join(xs, l, r) => JoinRepresents(p, sym, db, hs, n);
    case MatchA(e, aid, v) => PairRowsRepresented(PairsOf(db, aid), e, v);
    case MatchEA(eid, aid, v) => PairRowsRepresented(MatchEntity(PairsOf(db, aid), Eid(eid)), Symbol(sym), v);
    case MatchAV(e, aid, value) => PairRowsRepresented(MatchValue(PairsOf(db, aid), value), e, Symbol(sym));
  }

  lemma JoinColumns(p: Plan, left: Relation, right: Relation, db: Database)
    requires p.Join? && JoinRelations(p.variables, left, right, db).Ok?
    requires left.Variables() == Columns(p.left) && right.Variables() == Columns(p.right)
    requires (left.AttributeRelation? <==> p.left.MatchA?) && (right.AttributeRelation? <==> p.right.MatchA?)
    requires (left.AttributeRelation? ==> left.e != left.v) && (right.AttributeRelation? ==> right.e != right.v)
    ensures JoinRelations(p.variables, left, right, db).value.Variables() == Columns(p)
    ensures JoinRelations(p.variables, left, right, db).value.CollectionRelation?
  {
    JoinVariables(p.variables, left, right, db);
  }

  lemma {:induction false} JoinRepresents(p: Plan, sym: int, db: Database, hs: Histories, n: nat)
    requires p.Join? && p.Rewritable() && InFragment(p, sym) && Snapshot(db, hs, n) && AttributesIn(p) <= db.Keys
    ensures Direct(p, db).Ok?
    ensures var rel := Direct(p, db).value;
      rel.Variables() == Columns(p) && rel.CollectionRelation? && Represents(rel, db, Enumerate(p, sym, db))
    decreases p, 0
  {
    var sym' := IntoBindings(p.left, sym).sym;
    DirectRepresents(p.left, sym, db, hs, n);
    DirectRepresents(p.right, sym', db, hs, n);
    var left, right := Direct(p.left, db).value, Direct(p.right, db).value;
    var lrows, rrows := Enumerate(p.left, sym, db), Enumerate(p.right, sym', db);
    assert AllKeys(lrows, BoundVars(p.left, sym)) by { EnumerateIsSatisfying(p.left, sym, db, hs, n); }
    assert AllKeys(rrows, BoundVars(p.right, sym')) by { EnumerateIsSatisfying(p.right, sym', db, hs, n); }
    JoinableSides(p, sym, lrows, rrows, left, right);
    JoinIs(p.variables, left, right, db, lrows, rrows);
    JoinColumns(p, left, right, db);
  }

  lemma JoinableSides(p: Plan, sym: int, lrows: seq<Assignment>, rrows: seq<Assignment>, left: Relation, right: Relation)
    requires p.Join? && p.Rewritable() && InFragment(p, sym)
    requires left.Variables() == Columns(p.left) && right.Variables() == Columns(p.right)
    requires (left.AttributeRelation? <==> p.left.MatchA?) && (right.AttributeRelation? <==> p.right.MatchA?)
    requires AllKeys(lrows, BoundVars(p.left, sym)) && AllKeys(rrows, BoundVars(p.right, IntoBindings(p.left, sym).sym))
    ensures Joinable(p.variables, left, right, lrows, rrows)
  {
    var sym' := IntoBindings(p.left, sym).sym;
    forall x | x in Columns(p.left) ensures x in BoundVars(p.left, sym) { ColumnsAreBound(p.left, sym, x); }
    forall x | x in Columns(p.right) ensures x in BoundVars(p.right, sym') { ColumnsAreBound(p.right, sym', x); }
    if p.left.MatchA? {
      assert left.Variables()[0] == p.left.e && left.Variables()[1] == p.left.v;
    }
  }

  //
  // The rewrite preserves meaning
  //

  ghost function Occurrences(tuples: seq<Tuple>, x: Tuple): nat {
    if tuples == [] then 0 else (if tuples[0] == x then 1 else 0) + Occurrences(tuples[1..], x)
  }

  ghost function Matching(rows: seq<Assignment>, xs: seq<Var>, x: Tuple): set<Assignment> {
    if rows == [] then {} else (if Projected(rows[0], xs) == x then {rows[0]} else {}) + Matching(rows[1..], xs, x)
  }

  lemma {:induction false} MatchingAre(rows: seq<Assignment>, xs: seq<Var>, x: Tuple)
    ensures forall a :: a in Matching(rows, xs, x) <==> a in rows && Projected(a, xs) == x
  {
    if rows != [] { MatchingAre(rows[1..], xs, x); }
  }

  lemma {:induction false} OccurrencesOfRows(rows: seq<Assignment>, xs: seq<Var>, x: Tuple)
    requires Collections.Distinct(rows)
    ensures Occurrences(ProjectRows(rows, xs), x) == |Matching(rows, xs, x)|
  {
    if rows != [] {
      OccurrencesOfRows(rows[1..], xs, x);
      assert ProjectRows(rows, xs)[1..] == ProjectRows(rows[1..], xs);
      MatchingAre(rows[1..], xs, x);
      assert rows[0] !in Matching(rows[1..], xs, x);
    }
  }

  /** The query `implement_neu` hands to the delta join. */
  function Rewritten(p: Plan, sym: int): Query
    requires p.Rewritable()
  {
    Query(p.Variables(), IntoBindings(p, sym).bindings)
  }

  /** The direct result of a plan, projected onto its variables. */
  function DirectResult(p: Plan, db: Database): Outcome<seq<Tuple>> {
    match Direct(p, db)
    case Panic => Panic
    case Ok(relation) => ProjectRelation(relation, db, p.Variables())
  }

  /** On the fragment, the direct result holds every tuple as often as there are
      assignments that satisfy the bindings and project to it. */
  lemma RewritePreservesMeaning(p: Plan, sym: int, db: Database, hs: Histories, t: nat, x: Tuple, answers: set<Assignment>)
    requires p.Rewritable() && InFragment(p, sym) && Snapshot(db, hs, t + 1) && AttributesIn(p) <= db.Keys
    requires AreAnswers(Rewritten(p, sym), hs, t, x, answers)
    ensures DirectResult(p, db).Ok? && Occurrences(DirectResult(p, db).value, x) == |answers|
  {
    var rows := Enumerate(p, sym, db);
    DirectRepresents(p, sym, db, hs, t + 1);
    var rel := Direct(p, db).value;
    EnumerateIsSatisfying(p, sym, db, hs, t + 1);
    if p.MatchA? {
      ProjectAttribute(p.e, p.aid, p.v, db, rows, p.Variables());
    } else {
      ReprojectRows(rel.variables, rows, p.Variables());
    }
    assert DirectResult(p, db).value == ProjectRows(rows, p.Variables());
    OccurrencesOfRows(rows, p.Variables(), x);
    MatchingAre(rows, p.Variables(), x);
    assert answers == Matching(rows, p.Variables(), x);
  }

  /** One moment of one database at which the direct result and the bindings
      agree about a tuple. */
  ghost predicate AgreesOn(p: Plan, sym: int, db: Database, hs: Histories, t: nat, x: Tuple, answers: set<Assignment>)
    requires p.Rewritable()
  {
    Snapshot(db, hs, t + 1) && AttributesIn(p) <= db.Keys && AreAnswers(Rewritten(p, sym), hs, t, x, answers) ==>
      DirectResult(p, db).Ok? && Occurrences(DirectResult(p, db).value, x) == |answers|
  }

  /** The rewrite of a plan preserves its meaning. */
  ghost predicate PreservesMeaning(p: Plan, sym: int)
    requires p.Rewritable()
  {
    forall db, hs, t: nat, x, answers :: AgreesOn(p, sym, db, hs, t, x, answers)
  }

  /** Two attributes joined on their entity. */
  function EntityJoin(x: Var, a: Aid, y: Var, b: Aid, z: Var): (p: Plan)
    ensures p.Rewritable() && AttributesIn(p) == {a, b}
  {
    var l, r := MatchA(x, a, y), MatchA(x, b, z);
    assert l.Rewritable() && r.Rewritable() && AttributesIn(l) == {a} && AttributesIn(r) == {b};
    Join([x], l, r)
  }

  lemma EntityJoinBindings(x: Var, a: Aid, y: Var, b: Aid, z: Var, sym: int)
    ensures IntoBindings(EntityJoin(x, a, y, b, z), sym).bindings == [Attribute(x, a, y), Attribute(x, b, z)]
    ensures ToSet(AllVariables([Attribute(x, a, y), Attribute(x, b, z)])) == {x, y, z}
  {
    var l, r := [Attribute(x, a, y)], [Attribute(x, b, z)];
    assert IntoBindings(MatchA(x, a, y), sym).bindings == l && IntoBindings(MatchA(x, b, z), sym).bindings == r;
    assert l + r == [Attribute(x, a, y), Attribute(x, b, z)];
    MatchVariables(x, a, y, Constant(x, Bool(false)));
    MatchVariables(x, b, z, Constant(x, Bool(false)));
    AllVariablesConcat(l, r);
    assert ToSet(AllVariables(l + r)) == ToSet(AllVariables(l)) + ToSet(AllVariables(r));
  }

  lemma DistinctValuesAgree(x: Var, a: Aid, y: Var, b: Aid, z: Var, sym: int)
    requires x != y && x != z && y != z
    ensures PreservesMeaning(EntityJoin(x, a, y, b, z), sym)
  {
    var p := EntityJoin(x, a, y, b, z);
    MatchVariables(x, a, y, Constant(x, Bool(false)));
    MatchVariables(x, b, z, Constant(x, Bool(false)));
    assert IntoBindings(p.left, sym) == Rewrite([Attribute(x, a, y)], sym) && IntoBindings(p.right, sym) == Rewrite([Attribute(x, b, z)], sym);
    assert BoundVars(p.left, sym) == {x, y} && BoundVars(p.right, sym) == {x, z};
    assert InFragment(p.left, sym) && InFragment(p.right, sym);
    assert Columns(p.left) == [x, y] && Columns(p.right) == [x, z];
    assert JoinsOn([x], p.left, p.right) && SharesOnly([x], p.left, p.right, sym);
    assert InFragment(p, sym);
    forall db, hs, t: nat, tuple, answers ensures AgreesOn(p, sym, db, hs, t, tuple, answers) {
      if Snapshot(db, hs, t + 1) && AttributesIn(p) <= db.Keys && AreAnswers(Rewritten(p, sym), hs, t, tuple, answers) {
        RewritePreservesMeaning(p, sym, db, hs, t, tuple, answers);
      }
    }
  }

  /** An entity with two values. */
  function TwoValues(): seq<(Value, Value)> { [(Eid(1), Eid(2)), (Eid(1), Eid(3))] }

  function TwoUpdates(): History { [Record((Eid(1), Eid(2)), 0, 1), Record((Eid(1), Eid(3)), 0, 1)] }

  lemma TwoUpdatesCount(q: (Value, Value))
    ensures CountBefore(TwoUpdates(), q, 1) > 0 <==> q in TwoValues()
  {
    var h := TwoUpdates();
    assert h[1..][1..] == [];
    assert CountBefore(h[1..], q, 1) == if q == (Eid(1), Eid(3)) then 1 else 0;
  }

  lemma TwoValuesAreSnapshot(a: Aid, b: Aid)
    ensures Snapshot(map[a := TwoValues(), b := TwoValues()], map[a := TwoUpdates(), b := TwoUpdates()], 1)
  {
    forall q ensures CountBefore(TwoUpdates(), q, 1) > 0 <==> q in TwoValues() { TwoUpdatesCount(q); }
  }

  /** Joined directly, the values are not compared: four rows. */
  lemma FourRows(x: Var, a: Aid, y: Var, b: Aid)
    requires x != y
    ensures DirectResult(EntityJoin(x, a, y, b, y), map[a := TwoValues(), b := TwoValues()]) == Ok([[Eid(1)], [Eid(1)], [Eid(1)], [Eid(1)]])
  {
    var db: Database := map[a := TwoValues(), b := TwoValues()];
    var one, two, three := Eid(1), Eid(2), Eid(3);
    var keyed := [Keyed([one], [two]), Keyed([one], [three])];
    var l, r := AttributeRelation(x, a, y), AttributeRelation(x, b, y);
    assert PairsOf(db, a) == TwoValues() && PairsOf(db, b) == TwoValues();
    assert KeyedBy(l, x, db).value.1 == keyed && KeyedBy(r, x, db).value.1 == keyed;
    var rows := [[one, two, two], [one, two, three], [one, three, two], [one, three, three]];
    TwoByTwo(keyed, one, two, three);
    assert JoinRelations([x], l, r, db) == Ok(CollectionRelation([x, y, y], rows));
    assert Direct(EntityJoin(x, a, y, b, y), db) == Ok(CollectionRelation([x, y, y], rows));
    forall i | 0 <= i < 4 ensures Reprojected([x, y, y], rows[i], [x]) == [one] {
      assert Column([x, y, y], rows[i], x) == rows[i][0];
    }
    assert [x, y, y] != [x];
    assert ReprojectAll([x, y, y], rows, [x]) == [[one], [one], [one], [one]];
  }

  lemma TwoByTwo(keyed: seq<Keyed>, one: Value, two: Value, three: Value)
    requires keyed == [Keyed([one], [two]), Keyed([one], [three])]
    ensures JoinKeyed(keyed, keyed) == [[one, two, two], [one, two, three], [one, three, two], [one, three, three]]
  {
    OneByTwo(keyed, one, two, two, three);
    OneByTwo(keyed, one, three, two, three);
    assert keyed[1..] == [keyed[1]] && keyed[1..][1..] == [];
    assert JoinKeyed(keyed[1..], keyed) == JoinOne(keyed[1], keyed) + JoinKeyed([], keyed);
  }

  lemma OneByTwo(keyed: seq<Keyed>, one: Value, v: Value, two: Value, three: Value)
    requires keyed == [Keyed([one], [two]), Keyed([one], [three])]
    ensures JoinOne(Keyed([one], [v]), keyed) == [[one, v, two], [one, v, three]]
  {
    var k := Keyed([one], [v]);
    assert [one] + [v] + [two] == [one, v, two] && [one] + [v] + [three] == [one, v, three];
    assert keyed[1..] == [keyed[1]] && keyed[1..][1..] == [];
    assert JoinOne(k, keyed[1..]) == [[one, v, three]] + JoinOne(k, []);
  }

  /** The bindings force both values to be the same: two answers. */
  lemma TwoAnswers(x: Var, a: Aid, y: Var, b: Aid, sym: int)
    requires x != y
    ensures AreAnswers(Rewritten(EntityJoin(x, a, y, b, y), sym), map[a := TwoUpdates(), b := TwoUpdates()], 0, [Eid(1)],
                       {map[x := Eid(1), y := Eid(2)], map[x := Eid(1), y := Eid(3)]})
  {
    var hs: Histories, bs := map[a := TwoUpdates(), b := TwoUpdates()], [Attribute(x, a, y), Attribute(x, b, y)];
    var first: Assignment, second: Assignment := map[x := Eid(1), y := Eid(2)], map[x := Eid(1), y := Eid(3)];
    EntityJoinBindings(x, a, y, b, y, sym);
    forall q ensures CountBefore(TwoUpdates(), q, 1) > 0 <==> q in TwoValues() { TwoUpdatesCount(q); }
    forall m: Assignment
      ensures m in {first, second} <==> m.Keys == {x, y} && Satisfies(m, bs, hs, 1) && Projected(m, [x]) == [Eid(1)]
    {
      assert Satisfies(m, bs, hs, 1) <==> (Lookup(m, x), Lookup(m, y)) in TwoValues() by {
        assert bs[0] == Attribute(x, a, y) && bs[1] == Attribute(x, b, y);
        assert Holds(bs[0], m, hs, 1) <==> (Lookup(m, x), Lookup(m, y)) in TwoValues();
        assert Holds(bs[1], m, hs, 1) <==> (Lookup(m, x), Lookup(m, y)) in TwoValues();
      }
      assert Projected(m, [x]) == [Lookup(m, x)];
      if m.Keys == {x, y} && (Lookup(m, x), Lookup(m, y)) in TwoValues() {
        assert m == map[x := m[x], y := m[y]];
      }
    }
    assert {x, y, y} == {x, y};
  }

  lemma FourOccurrences(x: Tuple)
    ensures Occurrences([x, x, x, x], x) == 4
  {
    var one, two, three, four := [x], [x, x], [x, x, x], [x, x, x, x];
    assert one[1..] == [] && two[1..] == one && three[1..] == two && four[1..] == three;
    assert Occurrences(one, x) == 1 && Occurrences(two, x) == 2 && Occurrences(three, x) == 3;
  }

  lemma SharedValueDisagrees(x: Var, a: Aid, y: Var, b: Aid, sym: int)
    requires x != y
    ensures !PreservesMeaning(EntityJoin(x, a, y, b, y), sym)
  {
    var db: Database, hs: Histories := map[a := TwoValues(), b := TwoValues()], map[a := TwoUpdates(), b := TwoUpdates()];
    var first: Assignment, second: Assignment := map[x := Eid(1), y := Eid(2)], map[x := Eid(1), y := Eid(3)];
    TwoValuesAreSnapshot(a, b);
    FourRows(x, a, y, b);
    FourOccurrences([Eid(1)]);
    TwoAnswers(x, a, y, b, sym);
    assert |{first, second}| == 2 by { assert first[y] != second[y]; }
    Disagrees(EntityJoin(x, a, y, b, y), sym, db, hs, [Eid(1)], {first, second});
  }

  lemma Disagrees(p: Plan, sym: int, db: Database, hs: Histories, x: Tuple, answers: set<Assignment>)
    requires p.Rewritable() && Snapshot(db, hs, 1) && AttributesIn(p) <= db.Keys && AreAnswers(Rewritten(p, sym), hs, 0, x, answers)
    requires DirectResult(p, db).Ok? && Occurrences(DirectResult(p, db).value, x) != |answers|
    ensures !PreservesMeaning(p, sym)
  {
    assert !AgreesOn(p, sym, db, hs, 0, x, answers);
  }

  /** Joining two attributes on their entity, the rewrite preserves meaning exactly
      if their values are different variables: a variable that both sides bind but
      the join leaves out is not compared by the direct join, while the bindings
      force it to one value. */
  lemma EntityJoinAgreesIff(x: Var, a: Aid, y: Var, b: Aid, z: Var, sym: int)
    requires x != y && x != z
    ensures PreservesMeaning(EntityJoin(x, a, y, b, z), sym) <==> y != z
  {
    if y != z { DistinctValuesAgree(x, a, y, b, z, sym); } else { SharedValueDisagrees(x, a, y, b, sym); }
  }

  /** If the database lists what is present at time `t`, the output accumulated
      through `t` holds `x` as often as the direct result does. */
  ghost predicate Agrees(p: Plan, hs: Histories, out: seq<Record<Tuple, nat>>, t: nat, x: Tuple, db: Database) {
    Snapshot(db, hs, t + 1) && AttributesIn(p) <= db.Keys ==>
      DirectResult(p, db).Ok? && CountBefore(out, x, t + 1) == Occurrences(DirectResult(p, db).value, x)
  }

  //
  // What the delta join asks for, the rewrite provides
  //

  lemma {:induction false} BindingsAre(p: Plan, sym: int, j: nat)
    requires p.Rewritable() && InFragment(p, sym) && j < |IntoBindings(p, sym).bindings|
    ensures var b := IntoBindings(p, sym).bindings[j]; b.Proper() && (b.Attribute? || b.Constant?)
    ensures IntoBindings(p, sym).bindings[0].Attribute?
    decreases p
  {
    match p
    case Project(_, inner) => BindingsAre(inner, sym, j);
    case Join(_, l, r) =>
      var left := IntoBindings(l, sym);
      BindingsNonEmpty(l, sym);
      if j < |left.bindings| {
        BindingsAre(l, sym, j);
      } else {
        BindingsAre(l, sym, 0);
        BindingsAre(r, left.sym, j - |left.bindings|);
      }
    case _ =>
  }

  lemma {:induction false} BindingsNonEmpty(p: Plan, sym: int)
    requires p.Rewritable()
    ensures IntoBindings(p, sym).bindings != []
    decreases p
  {
    match p
    case Project(_, inner) => BindingsNonEmpty(inner, sym);
    case Join(_, l, r) => BindingsNonEmpty(l, sym);
    case _ =>
  }

  /** The bindings of a plan hang together. */
  lemma {:induction false} BindingsAreWhole(p: Plan, sym: int)
    requires p.Rewritable() && InFragment(p, sym)
    ensures Whole(IntoBindings(p, sym).bindings)
    decreases p
  {
    match p
    case Project(_, inner) => BindingsAreWhole(inner, sym);
    case Join(xs, l, r) =>
      var left := IntoBindings(l, sym);
      BindingsAreWhole(l, sym);
      BindingsAreWhole(r, left.sym);
      assert xs[0] in xs;
      ColumnsAreBound(l, sym, xs[0]);
      ColumnsAreBound(r, left.sym, xs[0]);
      WholeConcat(left.bindings, IntoBindings(r, left.sym).bindings, xs[0]);
    case MatchA(e, aid, v) =>
      MatchVariables(e, aid, v, Constant(e, Bool(false)));
      PairIsWhole(e, aid, v, IntoBindings(p, sym).bindings);
    case MatchEA(eid, aid, v) =>
      MatchVariables(Symbol(sym), aid, v, Constant(Symbol(sym), Eid(eid)));
      PairIsWhole(Symbol(sym), aid, v, IntoBindings(p, sym).bindings);
    case MatchAV(e, aid, value) =>
      MatchVariables(e, aid, Symbol(sym), Constant(Symbol(sym), value));
      PairIsWhole(e, aid, Symbol(sym), IntoBindings(p, sym).bindings);
  }

  lemma ReportedAreBound(p: Plan, sym: int, x: Var)
    requires p.Rewritable() && InFragment(p, sym) && x in p.Variables()
    ensures x in AllVariables(IntoBindings(p, sym).bindings)
  {
    ColumnsAreBound(p, sym, x);
  }

  /** What remains to be asked of the data and the indices: attributes are
      provided, and every source copes with its conflicts and its validations. */
  ghost predicate Executable(bindings: seq<Binding>, store: Store, hs: Histories) {
    && AllProvided(bindings, store, hs)
    && (|bindings| > 1 ==>
          forall j :: 0 <= j < |bindings| && bindings[j].Attribute? ==> ConflictsResolvable(j, bindings) && Validatable(j, bindings, store, hs))
  }

  /** A plan of the fragment is rewritten to a query the delta join supports. */
  lemma RewrittenIsSupported(p: Plan, sym: int, store: Store, hs: Histories)
    requires p.Rewritable() && InFragment(p, sym) && p.Variables() != []
    requires Executable(IntoBindings(p, sym).bindings, store, hs)
    ensures Supported(Rewritten(p, sym), store, hs)
  {
    var bs := IntoBindings(p, sym).bindings;
    BindingsNonEmpty(p, sym);
    BindingsAreWhole(p, sym);
    forall j | 0 <= j < |bs| ensures bs[j].Proper() && (bs[j].Attribute? || bs[j].Constant?) && bs[0].Attribute? { BindingsAre(p, sym, j); }
    assert bs[0].Attribute?;
    forall x | x in p.Variables() ensures x in AllVariables(bs) { ReportedAreBound(p, sym, x); }
    forall j | 0 <= j < |bs| && bs[j].Attribute? ensures Connected(bs, j) && Proposable(j, bs) {
      WholeIsConnected(bs, j);
      AttributesPropose(j, bs);
    }
    forall j | 0 <= j < |bs| ensures Simple(bs[j]) && Available(bs[j], store) { assert Provided(bs[j], store, hs); }
  }

  /** Joins of two attributes on their entity can be executed over any set-valued
      histories, with the indices as installed. */
  lemma EntityJoinIsExecutable(x: Var, a: Aid, y: Var, b: Aid, z: Var, sym: int, ha: History, hb: History)
    requires x != y && x != z && y != z && a != b
    requires SetValued(ha) && Bounded(ha) && SetValued(hb) && Bounded(hb)
    ensures Executable(IntoBindings(EntityJoin(x, a, y, b, z), sym).bindings, map[a := AsInstalled(ha), b := AsInstalled(hb)], map[a := ha, b := hb])
  {
    EntityJoinBindings(x, a, y, b, z, sym);
    var bs := [Attribute(x, a, y), Attribute(x, b, z)];
    var store: Store, hs: Histories := map[a := AsInstalled(ha), b := AsInstalled(hb)], map[a := ha, b := hb];
    assert store[a] == AsInstalled(ha) && hs[a] == ha;
    forall j | 0 <= j < 2 ensures ConflictsResolvable(j, bs) && Validatable(j, bs, store, hs) {
      assert SourceConflicts(j, bs, 2) == [];
      assert !InConflict(bs[1 - j], bs[j].e, bs[j].v);
      assert SourceConflicts(j, bs, 1) == [];
    }
  }

  /** Executing a plan through its bindings agrees, at every time, with executing
      it directly on the tuples present at that time. */
  method ImplementNeu(p: Plan, sym: int, store: Store, ghost hs: Histories) returns (out: Outcome<seq<Record<Tuple, nat>>>)
    requires p.Rewritable() && InFragment(p, sym) && p.Variables() != []
    requires Executable(IntoBindings(p, sym).bindings, store, hs)
    ensures out.Ok?
    ensures forall t: nat, x: Tuple, db: Database :: Agrees(p, hs, out.value, t, x, db)
  {
    RewrittenIsSupported(p, sym, store, hs);
    out := Implement(Rewritten(p, sym), store, hs);
    forall t: nat, x: Tuple, db: Database ensures Agrees(p, hs, out.value, t, x, db) {
      if Snapshot(db, hs, t + 1) && AttributesIn(p) <= db.Keys {
        assert Answered(Rewritten(p, sym), hs, out.value, t, x);
        var answers :| AreAnswers(Rewritten(p, sym), hs, t, x, answers) && CountBefore(out.value, x, t + 1) == |answers|;
        RewritePreservesMeaning(p, sym, db, hs, t, x, answers);
      }
    }
  }

  /** Only a join reports fewer variables than its relation has columns, and
      exactly when some side binds more than the join variables. */
  lemma ColumnsAreReportedIff(p: Plan)
    ensures Columns(p) == p.Variables() <==>
      (p.Join? ==> Others(Columns(p.left), p.variables) == [] && Others(Columns(p.right), p.variables) == [])
  {
    if p.Join? {
      assert |Columns(p)| == |p.variables| + |Others(Columns(p.left), p.variables)| + |Others(Columns(p.right), p.variables)|;
    }
  }

  //
  // Generated variables
  //

  /** The variables written in the patterns of a plan. */
  function PatternVars(p: Plan): set<Var> {
    match p
    case Project(_, inner) => PatternVars(inner)
    case Join(_, l, r) => PatternVars(l) + PatternVars(r)
    case MatchA(e, _, v) => {e, v}
    case MatchEA(_, _, v) => {v}
    case MatchAV(e, _, _) => {e}
    case NameExpr(_, _) => {}
  }

  function SymbolCount(p: Plan): nat {
    match p
    case Project(_, inner) => SymbolCount(inner)
    case Join(_, l, r) => SymbolCount(l) + SymbolCount(r)
    case MatchEA(_, _, _) => 1
    case MatchAV(_, _, _) => 1
    case _ => 0
  }

  /** How many variables are generated before `x` comes up. */
  function Distance(sym: int, x: Var): nat { (sym - x) % SYMBOLS }

  /** `x` is among the next `count` generated variables. */
  predicate Generated(x: Var, sym: int, count: nat) {
    x < SYMBOLS && Distance(sym, x) < count
  }

  lemma DistanceShifts(sym: int, x: Var, m: nat)
    requires m <= SYMBOLS
    ensures var d := Distance(sym, x); Distance(sym - m, x) == if m <= d then d - m else d - m + SYMBOLS
  {
    var d := Distance(sym, x);
    var k := (sym - x) / SYMBOLS;
    assert sym - x == k * SYMBOLS + d;
    if m <= d {
      ModIs(sym - m - x, k, d - m);
    } else {
      ModIs(sym - m - x, k - 1, d - m + SYMBOLS);
    }
  }

  lemma ModIs(a: int, k: int, d: nat)
    requires a == k * SYMBOLS + d && d < SYMBOLS
    ensures a % SYMBOLS == d
  {
  }

  lemma GeneratedSplits(x: Var, sym: int, m: nat, n: nat)
    requires m + n <= SYMBOLS
    ensures Generated(x, sym, m + n) <==> Generated(x, sym, m) || Generated(x, sym - m, n)
    ensures !(Generated(x, sym, m) && Generated(x, sym - m, n))
  {
    DistanceShifts(sym, x, m);
  }

  lemma GeneratedOne(x: Var, sym: int)
    ensures Generated(x, sym, 1) <==> x == Symbol(sym)
  {
    var s, k := Symbol(sym), sym / SYMBOLS;
    assert sym == k * SYMBOLS + s;
    if x == s {
      ModIs(sym - x, k, 0);
    } else if x < s {
      ModIs(sym - x, k, s - x);
    } else if x < SYMBOLS {
      ModIs(sym - x, k - 1, s - x + SYMBOLS);
    }
  }

  /** The variables of the bindings are those of the patterns and generated ones. */
  lemma {:induction false} BoundVarsAre(p: Plan, sym: int, x: Var)
    requires p.Rewritable() && SymbolCount(p) <= SYMBOLS
    ensures IntoBindings(p, sym).sym == sym - SymbolCount(p)
    ensures x in BoundVars(p, sym) <==> x in PatternVars(p) || Generated(x, sym, SymbolCount(p))
    decreases p
  {
    match p
    case Project(_, inner) => BoundVarsAre(inner, sym, x);
    case Join(_, l, r) =>
      var left := IntoBindings(l, sym);
      BoundVarsAre(l, sym, x);
      BoundVarsAre(r, left.sym, x);
      AllVariablesConcat(left.bindings, IntoBindings(r, left.sym).bindings);
      GeneratedSplits(x, sym, SymbolCount(l), SymbolCount(r));
    case MatchA(e, aid, v) => MatchVariables(e, aid, v, Constant(e, Bool(false)));
    case MatchEA(eid, aid, v) =>
      MatchVariables(Symbol(sym), aid, v, Constant(Symbol(sym), Eid(eid)));
      GeneratedOne(x, sym);
    case MatchAV(e, aid, value) =>
      MatchVariables(e, aid, Symbol(sym), Constant(Symbol(sym), value));
      GeneratedOne(x, sym);
  }

  predicate PatternsShareOnly(xs: seq<Var>, l: Plan, r: Plan) {
    forall x :: x in PatternVars(l) && x in PatternVars(r) ==> x in xs
  }

  /** The conditions of the fragment that concern the written plan only. */
  predicate WellJoined(p: Plan) {
    match p
    case Project(xs, inner) => WellJoined(inner) && Projectable(inner, xs)
    case Join(xs, l, r) =>
      WellJoined(l) && WellJoined(r) && JoinsOn(xs, l, r) && PatternsShareOnly(xs, l, r)
    case MatchA(e, _, v) => e != v
    case _ => true
  }

  /** None of the plan's own variables is generated for it. */
  ghost predicate Fresh(p: Plan, sym: int) {
    forall x :: x in PatternVars(p) ==> !Generated(x, sym, SymbolCount(p))
  }

  lemma FreshSides(p: Plan, sym: int)
    requires p.Join? && Fresh(p, sym) && SymbolCount(p) <= SYMBOLS
    ensures Fresh(p.left, sym) && Fresh(p.right, sym - SymbolCount(p.left))
  {
    forall x ensures x in PatternVars(p.left) ==> !Generated(x, sym, SymbolCount(p.left))
             ensures x in PatternVars(p.right) ==> !Generated(x, sym - SymbolCount(p.left), SymbolCount(p.right)) {
      GeneratedSplits(x, sym, SymbolCount(p.left), SymbolCount(p.right));
    }
  }

  lemma SharedVariable(p: Plan, sym: int, x: Var)
    requires p.Join? && p.Rewritable() && Fresh(p, sym) && SymbolCount(p) <= SYMBOLS
    requires PatternsShareOnly(p.variables, p.left, p.right)
    requires x in BoundVars(p.left, sym) && x in BoundVars(p.right, IntoBindings(p.left, sym).sym)
    ensures x in p.variables
  {
    var m, n := SymbolCount(p.left), SymbolCount(p.right);
    BoundVarsAre(p.left, sym, x);
    BoundVarsAre(p.right, sym - m, x);
    GeneratedSplits(x, sym, m, n);
  }

  lemma FreshJoin(p: Plan, sym: int)
    requires p.Join? && p.Rewritable() && Fresh(p, sym) && SymbolCount(p) <= SYMBOLS
    requires PatternsShareOnly(p.variables, p.left, p.right)
    ensures SharesOnly(p.variables, p.left, p.right, sym)
  {
    forall x | x in BoundVars(p.left, sym) && x in BoundVars(p.right, IntoBindings(p.left, sym).sym) ensures x in p.variables {
      SharedVariable(p, sym, x);
    }
  }

  /** Generated variables do no harm: a well-joined plan is in the fragment as
      soon as they are fresh. */
  lemma {:induction false} FreshSymbolsSuffice(p: Plan, sym: int)
    requires p.Rewritable() && WellJoined(p) && Fresh(p, sym) && SymbolCount(p) <= SYMBOLS
    ensures InFragment(p, sym)
    decreases p
  {
    match p
    case Project(_, inner) => FreshSymbolsSuffice(inner, sym);
    case Join(_, _, _) => FreshJoinSuffices(p, sym);
    case MatchA(_, _, _) =>
    case MatchEA(_, _, v) => GeneratedOne(v, sym);
    case MatchAV(e, _, _) => GeneratedOne(e, sym);
  }

  lemma {:induction false} FreshJoinSuffices(p: Plan, sym: int)
    requires p.Join? && p.Rewritable() && WellJoined(p) && Fresh(p, sym) && SymbolCount(p) <= SYMBOLS
    ensures InFragment(p, sym)
    decreases p, 0
  {
    FreshSides(p, sym);
    assert IntoBindings(p.left, sym).sym == sym - SymbolCount(p.left) by { BoundVarsAre(p.left, sym, 0); }
    FreshSymbolsSuffice(p.left, sym);
    FreshSymbolsSuffice(p.right, sym - SymbolCount(p.left));
    FreshJoin(p, sym);
  }
}
