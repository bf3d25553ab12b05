/** The values moved around by queries, with their derived total order. */
module Values {
  import Sorting

  type Aid = string

  datatype Value =
    | Aid(aid: string)
    | String(str: string)
    | Bool(b: bool)
    | Number(n: int)
    | Rational32(q: real)
    | Eid(eid: nat)
    | Instant(millis: nat)
    | Uuid(bits: nat)

  type Tuple = seq<Value>

  /** Lexicographic order, characters by code point. */
  predicate StringLess(a: string, b: string) {
    b != [] && (a == [] || a[0] < b[0] || (a[0] == b[0] && StringLess(a[1..], b[1..])))
  }

  function Rank(v: Value): nat {
    match v
    case Aid(_) => 0
    case String(_) => 1
    case Bool(_) => 2
    case Number(_) => 3
    case Rational32(_) => 4
    case Eid(_) => 5
    case Instant(_) => 6
    case Uuid(_) => 7
  }

  /** Variants in declaration order, then payloads. */
  predicate Less(a: Value, b: Value) {
    if Rank(a) != Rank(b) then Rank(a) < Rank(b)
    else match a
      case Aid(x) => StringLess(x, b.aid)
      case String(x) => StringLess(x, b.str)
      case Bool(x) => !x && b.b
      case Number(x) => x < b.n
      case Rational32(x) => x < b.q
      case Eid(x) => x < b.eid
      case Instant(x) => x < b.millis
      case Uuid(x) => x < b.bits
  }

  lemma {:induction false} StringLessTrichotomy(a: string, b: string)
    ensures a == b ==> !StringLess(a, b)
    ensures a != b ==> StringLess(a, b) != StringLess(b, a)
  {
    if a != [] && b != [] {
      StringLessTrichotomy(a[1..], b[1..]);
      assert a == [a[0]] + a[1..] && b == [b[0]] + b[1..];
    }
  }

  lemma {:induction false} StringLessTransitive(a: string, b: string, c: string)
    requires StringLess(a, b) && StringLess(b, c)
    ensures StringLess(a, c)
  {
    if a != [] && a[0] == b[0] && b[0] == c[0] { StringLessTransitive(a[1..], b[1..], c[1..]); }
  }

  lemma LessTrichotomy(a: Value, b: Value)
    ensures a == b ==> !Less(a, b)
    ensures a != b ==> Less(a, b) != Less(b, a)
  {
    if a.Aid? && b.Aid? { StringLessTrichotomy(a.aid, b.aid); }
    if a.String? && b.String? { StringLessTrichotomy(a.str, b.str); }
  }

  lemma LessTransitive(a: Value, b: Value, c: Value)
    requires Less(a, b) && Less(b, c)
    ensures Less(a, c)
  {
    if a.Aid? && b.Aid? && c.Aid? { StringLessTransitive(a.aid, b.aid, c.aid); }
    if a.String? && b.String? && c.String? { StringLessTransitive(a.str, b.str, c.str); }
  }

  /** The derived order on values is total: any two different values are ordered
      in exactly one way, and the order is transitive. */
  lemma LessIsTotalOrder()
    ensures Sorting.StrictOrder(Less) && Sorting.Total(Less)
  {
    forall a: Value, b: Value ensures (Less(a, b) ==> !Less(b, a)) && (a == b || Less(a, b) || Less(b, a)) { LessTrichotomy(a, b); }
    forall a: Value, b: Value, c: Value | Less(a, b) && Less(b, c) ensures Less(a, c) { LessTransitive(a, b, c); }
    Sorting.TotalIsStrict(Less);
  }

  /** Strings compare like words: a proper beginning comes first, and otherwise
      the first character that differs decides. */
  lemma {:induction false} StringLessIs(a: string, b: string, k: nat)
    ensures a <= b && a != b ==> StringLess(a, b) && !StringLess(b, a)
    ensures k < |a| && k < |b| && a[..k] == b[..k] && a[k] != b[k] ==> (StringLess(a, b) <==> a[k] < b[k])
    decreases |a|
  {
    if a != [] && b != [] {
      StringLessIs(a[1..], b[1..], if k == 0 then 0 else k - 1);
      StringLessTrichotomy(a[1..], b[1..]);
      assert a == [a[0]] + a[1..] && b == [b[0]] + b[1..];
      if k > 0 && k < |a| && k < |b| && a[..k] == b[..k] {
        assert a[..k][0] == a[0] && b[..k][0] == b[0];
        assert a[1..][..k - 1] == a[..k][1..] && b[1..][..k - 1] == b[..k][1..];
      }
      if a <= b { assert a[1..] == b[1..][..|a| - 1]; }
    }
  }

  /** Values of one kind compare by what they hold. */
  lemma LessWithinKind(a: Value, b: Value)
    ensures a.Aid? && b.Aid? ==> (Less(a, b) <==> StringLess(a.aid, b.aid))
    ensures a.String? && b.String? ==> (Less(a, b) <==> StringLess(a.str, b.str))
    ensures a.Bool? && b.Bool? ==> (Less(a, b) <==> a == Bool(false) && b == Bool(true))
    ensures a.Number? && b.Number? ==> (Less(a, b) <==> a.n < b.n)
    ensures a.Rational32? && b.Rational32? ==> (Less(a, b) <==> a.q < b.q)
    ensures a.Eid? && b.Eid? ==> (Less(a, b) <==> a.eid < b.eid)
    ensures a.Instant? && b.Instant? ==> (Less(a, b) <==> a.millis < b.millis)
    ensures a.Uuid? && b.Uuid? ==> (Less(a, b) <==> a.bits < b.bits)
  {
  }

  /** Kinds compare in the order of their declaration, whatever they hold. */
  lemma LessAcrossKinds(a: Value, b: Value)
    ensures a.Aid? && !b.Aid? ==> Less(a, b)
    ensures a.String? && !b.Aid? && !b.String? ==> Less(a, b)
    ensures a.Bool? && !b.Aid? && !b.String? && !b.Bool? ==> Less(a, b)
    ensures a.Number? && (b.Rational32? || b.Eid? || b.Instant? || b.Uuid?) ==> Less(a, b)
    ensures a.Rational32? && (b.Eid? || b.Instant? || b.Uuid?) ==> Less(a, b)
    ensures a.Eid? && (b.Instant? || b.Uuid?) ==> Less(a, b)
    ensures a.Instant? && b.Uuid? ==> Less(a, b)
  {
  }
}

/** The binding language: constraints between query variables. */
module Bindings {
  import opened Values

  type Var = nat

  datatype Option<+T> = None | Some(value: T)

  datatype Predicate = LT | GT | LTE | GTE | EQ | NEQ

  datatype Binding =
    | Attribute(e: Var, aid: Aid, v: Var)
    | Not(binding: Binding)
    | Constant(variable: Var, value: Value)
    | BinaryPredicate(op: Predicate, x: Var, y: Var)
  {
    function Variables(): seq<Var> {
      match this
      case Attribute(e, _, v) => [e, v]
      case Not(b) => b.Variables()
      case Constant(x, _) => [x]
      case BinaryPredicate(_, x, y) => [x, y]
    }

    function Binds(x: Var): Option<nat> {
      Position(Variables(), x)
    }

    /** The variable by which this binding could extend a prefix, if any: the
        only one the prefix does not bind yet. */
    function ReadyToExtend(prefix: seq<Var>): Option<Var> {
      match this
      case Attribute(e, _, v) => ReadyPair(e, v, prefix)
      case Not(b) => b.ReadyToExtend(prefix)
      case Constant(x, _) => if Position(prefix, x).None? then Some(x) else None
      case BinaryPredicate(_, x, y) => ReadyPair(x, y, prefix)
    }

    predicate CanExtend(prefix: seq<Var>, target: Var) {
      ReadyToExtend(prefix) == Some(target)
    }

    /** Two-variable bindings relate two different variables. */
    predicate Proper() {
      match this
      case Attribute(e, _, v) => e != v
      case Not(b) => b.Proper()
      case Constant(_, _) => true
      case BinaryPredicate(_, x, y) => x != y
    }
  }

  function ReadyPair(x: Var, y: Var, prefix: seq<Var>): Option<Var> {
    if Position(prefix, x).Some? && Position(prefix, y).None? then Some(y)
    else if Position(prefix, y).Some? && Position(prefix, x).None? then Some(x)
    else None
  }

  /** Offset of the first occurrence of `x` in a list of variables. */
  function Position(xs: seq<Var>, x: Var): (r: Option<nat>)
    ensures r.Some? <==> x in xs
    ensures r.Some? ==> r.value < |xs| && xs[r.value] == x && x !in xs[..r.value]
  {
    if xs == [] then None
    else if xs[0] == x then Some(0)
    else
      var rest := Position(xs[1..], x);
      if rest.None? then None
      else
        assert xs[..rest.value + 1] == [xs[0]] + xs[1..][..rest.value];
        Some(rest.value + 1)
  }

  predicate Compare(op: Predicate, a: Value, b: Value) {
    match op
    case LT => Less(a, b)
    case GT => Less(b, a)
    case LTE => !Less(b, a)
    case GTE => !Less(a, b)
    case EQ => a == b
    case NEQ => a != b
  }

  /** A proper binding is ready to extend a prefix to `target` exactly when
      `target` is the one variable it still lacks. */
  lemma ReadyIffLastVariable(b: Binding, prefix: seq<Var>, target: Var)
    requires b.Proper()
    ensures b.CanExtend(prefix, target) <==>
      target in b.Variables() && target !in prefix &&
      forall x :: x in b.Variables() && x != target ==> x in prefix
  {
    match b
    case Attribute(e, _, v) =>
      assert b.Variables()[0] == e && b.Variables()[1] == v;
    case Not(inner) => ReadyIffLastVariable(inner, prefix, target);
    case Constant(x, _) =>
      assert b.Variables()[0] == x;
    case BinaryPredicate(_, x, y) =>
      assert b.Variables()[0] == x && b.Variables()[1] == y;
  }

  lemma ReadyIsUnbound(b: Binding, prefix: seq<Var>)
    ensures b.ReadyToExtend(prefix).Some? ==>
      b.ReadyToExtend(prefix).value in b.Variables() && b.ReadyToExtend(prefix).value !in prefix
  {
    if b.Not? { ReadyIsUnbound(b.binding, prefix); }
  }
}
