/** Relations between variables, and how plans join them. */
module Relations {
  import opened Values
  import opened Bindings
  import opened Extenders
  import opened Semantics
  import Collections
  import opened Hector

  /** The tuples of every attribute at some moment. */
  type Database = map<Aid, seq<(Value, Value)>>

  function PairsOf(db: Database, aid: Aid): seq<(Value, Value)> {
    if aid in db then db[aid] else []
  }

  datatype Relation =
    | AttributeRelation(e: Var, aid: Aid, v: Var)
    | CollectionRelation(variables: seq<Var>, tuples: seq<Tuple>)
  {
    function Variables(): seq<Var> {
      match this
      case AttributeRelation(e, _, v) => [e, v]
      case CollectionRelation(variables, _) => variables
    }

    /** The attribute behind the relation exists. */
    predicate Installed(db: Database) { AttributeRelation? ==> aid in db }

    function Tuples(db: Database): seq<Tuple> {
      match this
      case AttributeRelation(_, aid, _) => PairTuples(PairsOf(db, aid), false)
      case CollectionRelation(_, tuples) => tuples
    }
  }

  function PairTuples(pairs: seq<(Value, Value)>, swap: bool): seq<Tuple> {
    seq(|pairs|, i requires 0 <= i < |pairs| => if swap then [pairs[i].1, pairs[i].0] else [pairs[i].0, pairs[i].1])
  }

  predicate AllBoundBy(xs: seq<Var>, variables: seq<Var>) {
    forall x :: x in xs ==> x in variables
  }

  function ReprojectAll(variables: seq<Var>, tuples: seq<Tuple>, xs: seq<Var>): seq<Tuple> {
    seq(|tuples|, i requires 0 <= i < |tuples| => Reprojected(variables, tuples[i], xs))
  }

  /** All tuples projected onto the given variables. */
  function ProjectRelation(r: Relation, db: Database, xs: seq<Var>): Outcome<seq<Tuple>> {
    match r
    case CollectionRelation(variables, tuples) =>
      if variables == xs then Ok(tuples)
      else if AllBoundBy(xs, variables) || tuples == [] then Ok(ReprojectAll(variables, tuples, xs))
      else Panic
    case AttributeRelation(e, aid, v) =>
      var pairs := PairsOf(db, aid);
      if aid !in db then Panic
      else if xs == [e, v] then Ok(PairTuples(pairs, false))
      else if xs == [v, e] then Ok(PairTuples(pairs, true))
      else if xs == [e] then Ok(seq(|pairs|, i requires 0 <= i < |pairs| => [pairs[i].0]))
      else if xs == [v] then Ok(seq(|pairs|, i requires 0 <= i < |pairs| => [pairs[i].1]))
      else Panic
  }

  //
  // Partitioning tuples by variables
  //

  datatype Keyed = Keyed(key: Tuple, values: Tuple)

  function KeyOffsets(variables: seq<Var>, keys: seq<Var>): seq<nat>
    requires AllBoundBy(keys, variables)
  {
    seq(|keys|, i requires 0 <= i < |keys| => Position(variables, keys[i]).value)
  }

  function OtherOffsets(variables: seq<Var>, keys: seq<Var>, k: nat): seq<nat>
    requires k <= |variables|
  {
    if k == 0 then []
    else OtherOffsets(variables, keys, k - 1) + if variables[k - 1] in keys then [] else [k - 1]
  }

  function Pick(tuple: Tuple, offsets: seq<nat>): Tuple {
    seq(|offsets|, i requires 0 <= i < |offsets| => At(tuple, offsets[i]))
  }

  function KeyedTuple(variables: seq<Var>, keys: seq<Var>, tuple: Tuple): Keyed
    requires AllBoundBy(keys, variables)
  {
    if keys == variables then Keyed(tuple, [])
    else if keys == [] then Keyed([], tuple)
    else Keyed(Pick(tuple, KeyOffsets(variables, keys)), Pick(tuple, OtherOffsets(variables, keys, |variables|)))
  }

  /** Splits every tuple into a key and the remaining values. */
  method TuplesByVariables(variables: seq<Var>, tuples: seq<Tuple>, keys: seq<Var>) returns (keyed: seq<Keyed>)
    requires AllBoundBy(keys, variables)
    ensures |keyed| == |tuples|
    ensures forall i :: 0 <= i < |tuples| ==> keyed[i] == KeyedTuple(variables, keys, tuples[i])
  {
    if keys == variables {
      keyed := seq(|tuples|, i requires 0 <= i < |tuples| => Keyed(tuples[i], []));
    } else if keys == [] {
      keyed := seq(|tuples|, i requires 0 <= i < |tuples| => Keyed([], tuples[i]));
    } else {
      var keyOffsets: seq<nat>, valueOffsets: seq<nat> := [], [];
      for i := 0 to |keys|
        invariant keyOffsets == KeyOffsets(variables, keys)[..i]
      {
        keyOffsets := keyOffsets + [Position(variables, keys[i]).value];
      }
      for k := 0 to |variables|
        invariant valueOffsets == OtherOffsets(variables, keys, k)
      {
        if variables[k] !in keys { valueOffsets := valueOffsets + [k]; }
      }
      assert keyOffsets == KeyOffsets(variables, keys);
      keyed := seq(|tuples|, i requires 0 <= i < |tuples| => Keyed(Pick(tuples[i], keyOffsets), Pick(tuples[i], valueOffsets)));
    }
  }

  /** The variables that are not keys, in their original order. */
  function Others(variables: seq<Var>, keys: seq<Var>): seq<Var> {
    if variables == [] then []
    else
      var n := |variables| - 1;
      Others(variables[..n], keys) + if variables[n] in keys then [] else [variables[n]]
  }

  lemma {:induction false} OthersAre(variables: seq<Var>, keys: seq<Var>)
    ensures forall x :: x in Others(variables, keys) <==> x in variables && x !in keys
  {
    if variables != [] {
      var n := |variables| - 1;
      OthersAre(variables[..n], keys);
      assert variables == variables[..n] + [variables[n]];
    }
  }

  lemma {:induction false} PickOthers(variables: seq<Var>, keys: seq<Var>, a: Assignment, k: nat)
    requires k <= |variables|
    ensures Pick(Projected(a, variables), OtherOffsets(variables, keys, k)) == Projected(a, Others(variables[..k], keys))
  {
    if k != 0 {
      PickOthers(variables, keys, a, k - 1);
      var tuple, offsets, others := Projected(a, variables), OtherOffsets(variables, keys, k - 1), Others(variables[..k - 1], keys);
      assert variables[..k][..k - 1] == variables[..k - 1];
      assert Pick(tuple, offsets + [k - 1]) == Pick(tuple, offsets) + [At(tuple, k - 1)];
      assert Projected(a, others + [variables[k - 1]]) == Projected(a, others) + [Lookup(a, variables[k - 1])];
      if variables[k - 1] in keys {
        assert OtherOffsets(variables, keys, k) == offsets && Others(variables[..k], keys) == others;
      }
    }
  }

  lemma {:induction false} OthersOfNone(variables: seq<Var>, keys: seq<Var>)
    ensures keys == [] ==> Others(variables, keys) == variables
    ensures AllBoundBy(variables, keys) ==> Others(variables, keys) == []
  {
    if variables != [] {
      var n := |variables| - 1;
      OthersOfNone(variables[..n], keys);
      assert variables == variables[..n] + [variables[n]];
    }
  }

  /** The key are the values of the given variables in the given order, the rest
      are the values of the other variables in their original order. */
  lemma KeyedProjection(variables: seq<Var>, keys: seq<Var>, a: Assignment)
    requires AllBoundBy(keys, variables)
    ensures KeyedTuple(variables, keys, Projected(a, variables)) == Keyed(Projected(a, keys), Projected(a, Others(variables, keys)))
  {
    OthersOfNone(variables, keys);
    PickOthers(variables, keys, a, |variables|);
    assert variables[..|variables|] == variables;
  }

  lemma {:induction false} OtherOffsetsAre(variables: seq<Var>, keys: seq<Var>, k: nat)
    requires k <= |variables|
    ensures Collections.Distinct(OtherOffsets(variables, keys, k))
    ensures forall i: nat :: i in OtherOffsets(variables, keys, k) <==> i < k && variables[i] !in keys
  {
    if k != 0 { OtherOffsetsAre(variables, keys, k - 1); }
  }

  lemma KeyOffsetsAre(variables: seq<Var>, keys: seq<Var>)
    requires Collections.Distinct(variables) && Collections.Distinct(keys) && AllBoundBy(keys, variables)
    ensures Collections.Distinct(KeyOffsets(variables, keys))
    ensures forall i: nat :: i in KeyOffsets(variables, keys) <==> i < |variables| && variables[i] in keys
  {
    var offsets := KeyOffsets(variables, keys);
    forall j | 0 <= j < |keys| ensures offsets[j] < |variables| && variables[offsets[j]] == keys[j] {}
    forall i: nat | i < |variables| && variables[i] in keys ensures i in offsets {
      var j :| 0 <= j < |keys| && keys[j] == variables[i];
      assert offsets[j] == i;
    }
  }

  /** Splitting loses and duplicates nothing: key and rest together pick every
      column of the tuple exactly once. */
  lemma KeyedIsPermutation(variables: seq<Var>, keys: seq<Var>, tuple: Tuple)
    requires Collections.Distinct(variables) && Collections.Distinct(keys)
    requires AllBoundBy(keys, variables) && |tuple| == |variables|
    ensures var offsets := KeyOffsets(variables, keys) + OtherOffsets(variables, keys, |variables|);
      && Collections.Distinct(offsets) && (forall i: nat :: i in offsets <==> i < |variables|)
      && KeyedTuple(variables, keys, tuple).key + KeyedTuple(variables, keys, tuple).values == Pick(tuple, offsets)
  {
    KeyOffsetsAre(variables, keys);
    OtherOffsetsAre(variables, keys, |variables|);
    PickedColumns(variables, keys, tuple);
  }

  lemma PickKeys(variables: seq<Var>, keys: seq<Var>, a: Assignment)
    requires AllBoundBy(keys, variables)
    ensures Pick(Projected(a, variables), KeyOffsets(variables, keys)) == Projected(a, keys)
  {
  }

  lemma PickConcat(tuple: Tuple, first: seq<nat>, second: seq<nat>)
    ensures Pick(tuple, first + second) == Pick(tuple, first) + Pick(tuple, second)
  {
  }

  lemma PickedColumns(variables: seq<Var>, keys: seq<Var>, tuple: Tuple)
    requires Collections.Distinct(variables) && AllBoundBy(keys, variables) && |tuple| == |variables|
    ensures KeyedTuple(variables, keys, tuple).key + KeyedTuple(variables, keys, tuple).values ==
      Pick(tuple, KeyOffsets(variables, keys) + OtherOffsets(variables, keys, |variables|))
  {
    var a := Zip(variables, tuple);
    ZipIsInverse(variables, tuple, a);
    KeyedProjection(variables, keys, a);
    PickKeys(variables, keys, a);
    PickOthers(variables, keys, a, |variables|);
    assert variables[..|variables|] == variables;
    PickConcat(tuple, KeyOffsets(variables, keys), OtherOffsets(variables, keys, |variables|));
  }

  //
  // Joins
  //

  /** All pairs with equal keys, key first, then the left and the right rest. */
  function JoinKeyed(l: seq<Keyed>, r: seq<Keyed>): seq<Tuple> {
    if l == [] then [] else JoinOne(l[0], r) + JoinKeyed(l[1..], r)
  }

  function JoinOne(k: Keyed, r: seq<Keyed>): seq<Tuple> {
    if r == [] then []
    else (if k.key == r[0].key then [k.key + k.values + r[0].values] else []) + JoinOne(k, r[1..])
  }

  function KeyAll(variables: seq<Var>, tuples: seq<Tuple>, keys: seq<Var>): seq<Keyed>
    requires AllBoundBy(keys, variables)
  {
    seq(|tuples|, i requires 0 <= i < |tuples| => KeyedTuple(variables, keys, tuples[i]))
  }

  function JoinedVariables(xs: seq<Var>, left: seq<Var>, right: seq<Var>): seq<Var> {
    xs + Others(left, xs) + Others(right, xs)
  }

  function CollectionCollection(xs: seq<Var>, left: Relation, right: Relation): Outcome<Relation>
    requires left.CollectionRelation? && right.CollectionRelation?
  {
    if AllBoundBy(xs, left.variables) && AllBoundBy(xs, right.variables) then
      Ok(CollectionRelation(JoinedVariables(xs, left.variables, right.variables),
                            JoinKeyed(KeyAll(left.variables, left.tuples, xs), KeyAll(right.variables, right.tuples, xs))))
    else Panic
  }

  function CollectionAttribute(xs: seq<Var>, left: Relation, right: Relation, db: Database): Outcome<Relation>
    requires left.CollectionRelation? && right.AttributeRelation?
  {
    CollectionCollection(xs, left, CollectionRelation([right.e, right.v], PairTuples(PairsOf(db, right.aid), false)))
  }

  /** An attribute keyed by the target: its other variable, and its pairs with
      the target first; none if the attribute does not bind the target. */
  function KeyedBy(r: Relation, target: Var, db: Database): Option<(Var, seq<Keyed>)>
    requires r.AttributeRelation?
  {
    var pairs := PairsOf(db, r.aid);
    if target == r.e then Some((r.v, seq(|pairs|, i requires 0 <= i < |pairs| => Keyed([pairs[i].0], [pairs[i].1]))))
    else if target == r.v then Some((r.e, seq(|pairs|, i requires 0 <= i < |pairs| => Keyed([pairs[i].1], [pairs[i].0]))))
    else None
  }

  function AttributeAttribute(target: Var, left: Relation, right: Relation, db: Database): Outcome<Relation>
    requires left.AttributeRelation? && right.AttributeRelation?
  {
    match (KeyedBy(left, target, db), KeyedBy(right, target, db))
    case (Some((x, l)), Some((y, r))) => Ok(CollectionRelation([target, x, y], JoinKeyed(l, r)))
    case _ => Panic
  }

  /** Joining on several variables at once is not implemented between attributes;
      an attribute on the left of a collection is joined from the right. */
  function JoinRelations(xs: seq<Var>, left: Relation, right: Relation, db: Database): Outcome<Relation> {
    if xs == [] || !left.Installed(db) || !right.Installed(db) then Panic
    else
      match (left, right)
      case (AttributeRelation(_, _, _), AttributeRelation(_, _, _)) =>
        if |xs| == 1 then AttributeAttribute(xs[0], left, right, db) else Panic
      case (AttributeRelation(_, _, _), CollectionRelation(_, _)) => CollectionAttribute(xs, right, left, db)
      case (CollectionRelation(_, _), AttributeRelation(_, _, _)) => CollectionAttribute(xs, left, right, db)
      case (CollectionRelation(_, _), CollectionRelation(_, _)) => CollectionCollection(xs, left, right)
  }

  /** A projection fails exactly if the attribute does not exist or is projected
      onto anything but its variables, or if there are tuples to project and a
      variable is not among their columns. */
  lemma ProjectFailsIff(r: Relation, db: Database, xs: seq<Var>)
    ensures r.AttributeRelation? ==>
      (ProjectRelation(r, db, xs).Panic? <==> r.aid !in db || xs !in [[r.e, r.v], [r.v, r.e], [r.e], [r.v]])
    ensures r.CollectionRelation? ==>
      (ProjectRelation(r, db, xs).Panic? <==> r.tuples != [] && exists x :: x in xs && x !in r.variables)
  {
  }

  /** A join fails exactly if it has no variables, an attribute does not exist, a
      side does not bind a join variable, or two attributes are to be joined on
      anything but one variable. */
  lemma JoinFailsIff(xs: seq<Var>, left: Relation, right: Relation, db: Database)
    ensures JoinRelations(xs, left, right, db).Panic? <==>
      || xs == []
      || (left.AttributeRelation? && left.aid !in db) || (right.AttributeRelation? && right.aid !in db)
      || (left.AttributeRelation? && right.AttributeRelation? && |xs| != 1)
      || (exists x :: x in xs && (x !in left.Variables() || x !in right.Variables()))
  {
    if left.AttributeRelation? && right.AttributeRelation? && |xs| == 1 {
      assert xs == [xs[0]] && xs[0] in xs;
      assert left.Variables()[0] == left.e && left.Variables()[1] == left.v;
      assert right.Variables()[0] == right.e && right.Variables()[1] == right.v;
    }
  }

  //
  // What a join computes
  //

  function ProjectRows(rows: seq<Assignment>, xs: seq<Var>): seq<Tuple> {
    seq(|rows|, i requires 0 <= i < |rows| => Projected(rows[i], xs))
  }

  /** The relation lists the values of these assignments, column by column. */
  ghost predicate Represents(r: Relation, db: Database, rows: seq<Assignment>) {
    r.Installed(db) && r.Tuples(db) == ProjectRows(rows, r.Variables())
  }

  /** All combinations of two lists of assignments that agree on the variables. */
  function JoinRows(l: seq<Assignment>, r: seq<Assignment>, xs: seq<Var>): seq<Assignment> {
    if l == [] then [] else JoinRow(l[0], r, xs) + JoinRows(l[1..], r, xs)
  }

  function JoinRow(a: Assignment, r: seq<Assignment>, xs: seq<Var>): seq<Assignment> {
    if r == [] then []
    else (if Projected(a, xs) == Projected(r[0], xs) then [a + r[0]] else []) + JoinRow(a, r[1..], xs)
  }

  ghost predicate Binds(rows: seq<Assignment>, xs: seq<Var>) {
    forall a, x :: a in rows && x in xs ==> x in a
  }

  ghost predicate Avoids(rows: seq<Assignment>, xs: seq<Var>) {
    forall a, x :: a in rows && x in xs ==> x !in a
  }

  lemma ProjectRowsConcat(a: seq<Assignment>, b: seq<Assignment>, xs: seq<Var>)
    ensures ProjectRows(a + b, xs) == ProjectRows(a, xs) + ProjectRows(b, xs)
  {
  }

  ghost predicate KeyedRows(k: seq<Keyed>, rows: seq<Assignment>, xs: seq<Var>, others: seq<Var>) {
    |k| == |rows| && forall i :: 0 <= i < |k| ==> k[i] == Keyed(Projected(rows[i], xs), Projected(rows[i], others))
  }

  lemma MergedRow(a: Assignment, b: Assignment, xs: seq<Var>, left: seq<Var>, right: seq<Var>)
    requires Projected(a, xs) == Projected(b, xs)
    requires forall x :: x in xs ==> x in b
    requires forall x :: x in left ==> x !in b
    requires forall x :: x in right ==> x in b
    ensures Projected(a + b, xs + left + right) == Projected(a, xs) + Projected(a, left) + Projected(b, right)
  {
    var all := xs + left + right;
    forall i | 0 <= i < |all|
      ensures Lookup(a + b, all[i]) == (Projected(a, xs) + Projected(a, left) + Projected(b, right))[i]
    {
      if i < |xs| {
        assert Projected(a, xs)[i] == Projected(b, xs)[i];
      }
    }
  }

  lemma {:induction false} JoinOneIs(a: Assignment, k: Keyed, r: seq<Keyed>, rows: seq<Assignment>, xs: seq<Var>, left: seq<Var>, right: seq<Var>)
    requires k == Keyed(Projected(a, xs), Projected(a, left)) && KeyedRows(r, rows, xs, right)
    requires Binds(rows, xs) && Binds(rows, right) && Avoids(rows, left)
    ensures JoinOne(k, r) == ProjectRows(JoinRow(a, rows, xs), xs + left + right)
  {
    if r != [] {
      forall b | b in rows[1..] ensures b in rows {}
      assert rows[0] in rows;
      JoinOneIs(a, k, r[1..], rows[1..], xs, left, right);
      if k.key == r[0].key {
        MergedRow(a, rows[0], xs, left, right);
        ProjectRowsConcat([a + rows[0]], JoinRow(a, rows[1..], xs), xs + left + right);
      }
    }
  }

  lemma {:induction false} JoinKeyedIs(l: seq<Keyed>, lrows: seq<Assignment>, r: seq<Keyed>, rrows: seq<Assignment>,
                                       xs: seq<Var>, left: seq<Var>, right: seq<Var>)
    requires KeyedRows(l, lrows, xs, left) && KeyedRows(r, rrows, xs, right)
    requires Binds(rrows, xs) && Binds(rrows, right) && Avoids(rrows, left)
    ensures JoinKeyed(l, r) == ProjectRows(JoinRows(lrows, rrows, xs), xs + left + right)
  {
    if l != [] {
      JoinOneIs(lrows[0], l[0], r, rrows, xs, left, right);
      JoinKeyedIs(l[1..], lrows[1..], r, rrows, xs, left, right);
      ProjectRowsConcat(JoinRow(lrows[0], rrows, xs), JoinRows(lrows[1..], rrows, xs), xs + left + right);
    }
  }

  lemma KeyAllRows(variables: seq<Var>, rows: seq<Assignment>, keys: seq<Var>)
    requires AllBoundBy(keys, variables)
    ensures KeyedRows(KeyAll(variables, ProjectRows(rows, variables), keys), rows, keys, Others(variables, keys))
  {
    forall i | 0 <= i < |rows|
      ensures KeyedTuple(variables, keys, Projected(rows[i], variables)) ==
        Keyed(Projected(rows[i], keys), Projected(rows[i], Others(variables, keys)))
    {
      KeyedProjection(variables, keys, rows[i]);
    }
  }

  /** Joining two collections: the output is aligned with its variable list and
      holds exactly the combinations that agree on the join variables. */
  lemma CollectionJoinIs(xs: seq<Var>, left: Relation, right: Relation, db: Database, l: seq<Assignment>, r: seq<Assignment>)
    requires left.CollectionRelation? && right.CollectionRelation?
    requires Represents(left, db, l) && Represents(right, db, r)
    requires AllBoundBy(xs, left.variables) && AllBoundBy(xs, right.variables) && Binds(r, right.variables)
    requires forall b, x :: b in r && x in left.variables && x !in xs ==> x !in b
    ensures CollectionCollection(xs, left, right).Ok?
    ensures Represents(CollectionCollection(xs, left, right).value, db, JoinRows(l, r, xs))
  {
    KeyAllRows(left.variables, l, xs);
    KeyAllRows(right.variables, r, xs);
    OthersAre(left.variables, xs);
    OthersAre(right.variables, xs);
    JoinKeyedIs(KeyAll(left.variables, left.tuples, xs), l, KeyAll(right.variables, right.tuples, xs), r, xs,
                Others(left.variables, xs), Others(right.variables, xs));
  }

  lemma KeyedByRows(rel: Relation, target: Var, db: Database, rows: seq<Assignment>)
    requires rel.AttributeRelation? && Represents(rel, db, rows) && (target == rel.e || target == rel.v)
    ensures KeyedBy(rel, target, db).Some?
    ensures var (x, keyed) := KeyedBy(rel, target, db).value;
      x == (if target == rel.e then rel.v else rel.e) && KeyedRows(keyed, rows, [target], [x])
  {
    var (x, keyed) := KeyedBy(rel, target, db).value;
    var pairs := PairsOf(db, rel.aid);
    assert |pairs| == |rel.Tuples(db)| == |rows|;
    forall i | 0 <= i < |pairs| ensures keyed[i] == Keyed(Projected(rows[i], [target]), Projected(rows[i], [x])) {
      var tuple := rel.Tuples(db)[i];
      assert tuple == [pairs[i].0, pairs[i].1] && tuple == Projected(rows[i], [rel.e, rel.v]);
      assert tuple[0] == Lookup(rows[i], rel.e) && tuple[1] == Lookup(rows[i], rel.v);
    }
  }

  lemma AttributeJoinIs(target: Var, left: Relation, right: Relation, db: Database, l: seq<Assignment>, r: seq<Assignment>)
    requires left.AttributeRelation? && right.AttributeRelation?
    requires Represents(left, db, l) && Represents(right, db, r)
    requires target in left.Variables() && target in right.Variables() && Binds(r, right.Variables())
    requires left.e != left.v && forall b, x :: b in r && x in left.Variables() && x != target ==> x !in b
    ensures AttributeAttribute(target, left, right, db).Ok?
    ensures Represents(AttributeAttribute(target, left, right, db).value, db, JoinRows(l, r, [target]))
  {
    KeyedByRows(left, target, db, l);
    KeyedByRows(right, target, db, r);
    var (x, lk) := KeyedBy(left, target, db).value;
    var (y, rk) := KeyedBy(right, target, db).value;
    assert right.Variables()[0] == right.e && right.Variables()[1] == right.v;
    assert left.Variables()[0] == left.e && left.Variables()[1] == left.v;
    JoinKeyedIs(lk, l, rk, r, [target], [x], [y]);
    assert [target] + [x] + [y] == [target, x, y];
  }

  lemma CollectedAttribute(rel: Relation, db: Database, rows: seq<Assignment>)
    requires rel.AttributeRelation? && Represents(rel, db, rows)
    ensures Represents(CollectionRelation([rel.e, rel.v], PairTuples(PairsOf(db, rel.aid), false)), db, rows)
  {
  }

  /** The rows of a join, in the order the join visits them: an attribute on the
      left of a collection is visited second. */
  function RowsInOrder(left: Relation, right: Relation, l: seq<Assignment>, r: seq<Assignment>, xs: seq<Var>): seq<Assignment> {
    if left.AttributeRelation? && right.CollectionRelation? then JoinRows(r, l, xs) else JoinRows(l, r, xs)
  }

  /** What joining needs: join variables bound by both sides, no other variable
      in common, and only one of them between two attributes. */
  ghost predicate Joinable(xs: seq<Var>, left: Relation, right: Relation, l: seq<Assignment>, r: seq<Assignment>) {
    && xs != [] && (left.AttributeRelation? && right.AttributeRelation? ==> |xs| == 1)
    && AllBoundBy(xs, left.Variables()) && AllBoundBy(xs, right.Variables())
    && Binds(l, left.Variables()) && Binds(r, right.Variables())
    && (left.AttributeRelation? ==> left.e != left.v)
    && (forall b, x :: b in r && x in left.Variables() && x !in xs ==> x !in b)
    && (forall a, x :: a in l && x in right.Variables() && x !in xs ==> x !in a)
  }

  /** Whatever kinds of relations are joined, the output is aligned with its
      variable list and holds exactly the combinations that agree on the join
      variables. */
  lemma JoinIs(xs: seq<Var>, left: Relation, right: Relation, db: Database, l: seq<Assignment>, r: seq<Assignment>)
    requires Represents(left, db, l) && Represents(right, db, r) && Joinable(xs, left, right, l, r)
    ensures JoinRelations(xs, left, right, db).Ok?
    ensures Represents(JoinRelations(xs, left, right, db).value, db, RowsInOrder(left, right, l, r, xs))
  {
    match (left, right)
    case (AttributeRelation(_, _, _), AttributeRelation(_, _, _)) =>
      assert xs == [xs[0]] && xs[0] in xs;
      AttributeJoinIs(xs[0], left, right, db, l, r);
    case (AttributeRelation(_, _, _), CollectionRelation(_, _)) =>
      CollectedAttribute(left, db, l);
      CollectionJoinIs(xs, right, CollectionRelation([left.e, left.v], PairTuples(PairsOf(db, left.aid), false)), db, r, l);
    case (CollectionRelation(_, _), AttributeRelation(_, _, _)) =>
      CollectedAttribute(right, db, r);
      CollectionJoinIs(xs, left, CollectionRelation([right.e, right.v], PairTuples(PairsOf(db, right.aid), false)), db, l, r);
    case (CollectionRelation(_, _), CollectionRelation(_, _)) =>
      CollectionJoinIs(xs, left, right, db, l, r);
  }

  lemma AttributeColumns(xs: seq<Var>, e: Var, v: Var)
    requires e != v && |xs| == 1 && xs[0] in [e, v]
    ensures Others([e, v], xs) == [if xs[0] == e then v else e]
  {
    assert [e, v][..1] == [e] && [e][..0] == [];
    assert Others([e], xs) == Others([], xs) + if e in xs then [] else [e];
  }

  lemma AttributePairVariables(target: Var, left: Relation, right: Relation, db: Database)
    requires left.AttributeRelation? && right.AttributeRelation? && left.e != left.v && right.e != right.v
    requires AttributeAttribute(target, left, right, db).Ok?
    ensures AttributeAttribute(target, left, right, db).value.Variables() == JoinedVariables([target], left.Variables(), right.Variables())
  {
    assert left.Variables()[0] == left.e && left.Variables()[1] == left.v;
    assert right.Variables()[0] == right.e && right.Variables()[1] == right.v;
    var x, y := KeyedBy(left, target, db).value.0, KeyedBy(right, target, db).value.0;
    assert Others(left.Variables(), [target]) == [x] by { AttributeColumns([target], left.e, left.v); }
    assert Others(right.Variables(), [target]) == [y] by { AttributeColumns([target], right.e, right.v); }
    assert [target] + [x] + [y] == [target, x, y];
  }

  /** The variables of a join: the join variables, then what else the sides bind
      in the order the join visits them. */
  lemma JoinVariables(xs: seq<Var>, left: Relation, right: Relation, db: Database)
    requires JoinRelations(xs, left, right, db).Ok?
    requires (left.AttributeRelation? ==> left.e != left.v) && (right.AttributeRelation? ==> right.e != right.v)
    ensures JoinRelations(xs, left, right, db).value.CollectionRelation?
    ensures JoinRelations(xs, left, right, db).value.Variables() ==
      if left.AttributeRelation? && right.CollectionRelation? then JoinedVariables(xs, right.Variables(), left.Variables())
      else JoinedVariables(xs, left.Variables(), right.Variables())
  {
    if left.AttributeRelation? && right.AttributeRelation? {
      assert xs == [xs[0]];
      AttributePairVariables(xs[0], left, right, db);
    }
  }
}
