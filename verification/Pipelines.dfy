/** The meaning of a query: the assignments that satisfy all of its bindings. */
module Semantics {
  import opened Values
  import opened Bindings
  import opened Collections
  import opened Extenders
  import opened Indices

  type Assignment = map<Var, Value>

  type Histories = map<Aid, History>

  function Lookup(a: Assignment, x: Var): Value {
    if x in a then a[x] else Bool(false)
  }

  function Projected(a: Assignment, xs: seq<Var>): Tuple {
    seq(|xs|, i requires 0 <= i < |xs| => Lookup(a, xs[i]))
  }

  /** The value of a variable in a tuple aligned with a list of variables. */
  function Column(prefix: seq<Var>, tuple: Tuple, x: Var): Value {
    match Position(prefix, x)
    case None => Bool(false)
    case Some(offset) => At(tuple, offset)
  }

  function Reprojected(prefix: seq<Var>, tuple: Tuple, xs: seq<Var>): Tuple {
    seq(|xs|, i requires 0 <= i < |xs| => Column(prefix, tuple, xs[i]))
  }

  function HistoryOf(hs: Histories, aid: Aid): History {
    if aid in hs then hs[aid] else []
  }

  /** Whether a binding holds of an assignment, given the updates before `n`.
      A predicate over `(x, y)` compares the value of `y` to that of `x`. */
  ghost predicate Holds(b: Binding, a: Assignment, hs: Histories, n: nat) {
    match b
    case Attribute(e, aid, v) => CountBefore(HistoryOf(hs, aid), (Lookup(a, e), Lookup(a, v)), n) > 0
    case Not(inner) => !Holds(inner, a, hs, n)
    case Constant(x, value) => Lookup(a, x) == value
    case BinaryPredicate(op, x, y) => Compare(op, Lookup(a, y), Lookup(a, x))
  }

  ghost predicate Satisfies(a: Assignment, bindings: seq<Binding>, hs: Histories, n: nat) {
    forall j :: 0 <= j < |bindings| ==> Holds(bindings[j], a, hs, n)
  }

  /** The six comparisons, on integers. */
  predicate CompareInts(op: Predicate, m: int, n: int) {
    match op
    case LT => m < n
    case GT => m > n
    case LTE => m <= n
    case GTE => m >= n
    case EQ => m == n
    case NEQ => m != n
  }

  /** The magnitude of a value that stands for an integer. */
  function Magnitude(v: Value): Option<int> {
    match v
    case Number(n) => Some(n)
    case Eid(e) => Some(e)
    case Instant(millis) => Some(millis)
    case Uuid(bits) => Some(bits)
    case Bool(b) => Some(if b then 1 else 0)
    case _ => None
  }

  predicate SameKind(a: Value, b: Value) {
    (a.Number? && b.Number?) || (a.Eid? && b.Eid?) || (a.Instant? && b.Instant?) || (a.Uuid? && b.Uuid?) || (a.Bool? && b.Bool?)
  }

  /** A predicate over numbers, entities, instants, identifiers or truth values
      compares the integer of its second variable to that of its first. */
  lemma PredicateComparesIntegers(op: Predicate, x: Var, y: Var, a: Assignment, hs: Histories, n: nat)
    requires SameKind(Lookup(a, x), Lookup(a, y))
    ensures Holds(BinaryPredicate(op, x, y), a, hs, n) <==>
      CompareInts(op, Magnitude(Lookup(a, y)).value, Magnitude(Lookup(a, x)).value)
  {
    LessWithinKind(Lookup(a, y), Lookup(a, x));
    LessWithinKind(Lookup(a, x), Lookup(a, y));
  }

  /** Over strings, `LT` says that the second is a proper beginning of the first,
      or smaller in the first character that differs; `GT` the other way round. */
  lemma PredicateComparesStrings(x: Var, y: Var, a: Assignment, hs: Histories, n: nat, s: string, t: string, k: nat)
    requires Lookup(a, x) == String(s) && Lookup(a, y) == String(t)
    requires (t <= s && t != s) || (k < |s| && k < |t| && s[..k] == t[..k] && t[k] < s[k])
    ensures Holds(BinaryPredicate(LT, x, y), a, hs, n) && Holds(BinaryPredicate(LTE, x, y), a, hs, n)
    ensures !Holds(BinaryPredicate(GT, x, y), a, hs, n) && !Holds(BinaryPredicate(GTE, x, y), a, hs, n)
    ensures Holds(BinaryPredicate(GT, y, x), a, hs, n) && Holds(BinaryPredicate(GTE, y, x), a, hs, n)
  {
    StringLessIs(t, s, k);
    StringLessIs(s, t, k);
    LessWithinKind(String(t), String(s));
    LessWithinKind(String(s), String(t));
    StringLessTrichotomy(s, t);
  }
}

/** One delta pipeline per attribute binding. */
module Pipelines {
  import opened Values
  import opened Bindings
  import opened Collections
  import opened AltNeuTime
  import opened Extenders
  import opened Indices
  import opened PlanOrders
  import opened Semantics

  type Store = map<Aid, AttributeIndex>

  //
  // Conflicts with the source
  //

  predicate InConflict(b: Binding, e: Var, v: Var) {
    b.CanExtend([e], v) || b.CanExtend([v], e)
  }

  function SourceConflicts(source: nat, bindings: seq<Binding>, from: nat := 0): seq<Binding>
    requires source < |bindings| && bindings[source].Attribute? && from <= |bindings|
    decreases |bindings| - from
  {
    if from == |bindings| then []
    else
      var rest := SourceConflicts(source, bindings, from + 1);
      if from != source && InConflict(bindings[from], bindings[source].e, bindings[source].v) then [bindings[from]] + rest
      else rest
  }

  ghost predicate Within(b: Binding, prefix: seq<Var>) {
    forall x :: x in b.Variables() ==> x in prefix
  }

  /** A binding conflicts with the source iff the source binds all its variables. */
  lemma ConflictIffWithin(b: Binding, e: Var, v: Var)
    requires b.Proper() && e != v
    ensures InConflict(b, e, v) <==> Within(b, [e, v])
  {
    ReadyIffLastVariable(b, [e], v);
    ReadyIffLastVariable(b, [v], e);
    var x := FirstVariable(b);
  }

  lemma {:induction false} ConflictsAre(source: nat, bindings: seq<Binding>, from: nat)
    requires source < |bindings| && bindings[source].Attribute? && from <= |bindings|
    ensures forall b :: b in SourceConflicts(source, bindings, from) <==>
      exists j :: from <= j < |bindings| && j != source && bindings[j] == b &&
        InConflict(b, bindings[source].e, bindings[source].v)
    decreases |bindings| - from
  {
    if from < |bindings| { ConflictsAre(source, bindings, from + 1); }
  }

  //
  // Extenders of a step
  //

  /** Negation only wraps constants and predicates. */
  predicate Simple(b: Binding) {
    b.Not? ==> b.binding.Constant? || b.binding.BinaryPredicate?
  }

  predicate Available(b: Binding, store: Store) {
    b.Attribute? ==> b.aid in store
  }

  lemma ExtendableHasDirection(b: Binding, prefix: seq<Var>, target: Var)
    ensures b.CanExtend(prefix, target) && b.Attribute? ==> DirectionOf(prefix, b.e, b.v).Some?
    ensures b.CanExtend(prefix, target) && b.BinaryPredicate? ==> DirectionOf(prefix, b.x, b.y).Some?
  {
  }

  /** The extender a binding contributes to a step. */
  function ExtenderOf(b: Binding, neu: bool, prefix: seq<Var>, target: Var, store: Store): Extender
    requires b.CanExtend(prefix, target) && Simple(b) && Available(b, store)
  {
    ExtendableHasDirection(b, prefix, target);
    match b
    case Not(inner) => AntijoinExtender(ExtenderOf(inner, neu, prefix, target, store))
    case Constant(_, value) => ConstantExtender(value)
    case BinaryPredicate(op, x, y) => PredicateExtender(op, DirectionOf(prefix, x, y).value)
    case Attribute(e, aid, v) =>
      match DirectionOf(prefix, e, v).value
      case Forward(offset) => ForwardExtender(store[aid], neu, offset)
      case Reverse(offset) => ReverseExtender(store[aid], neu, offset)
  }

  predicate AllSimple(bindings: seq<Binding>, store: Store) {
    forall j :: 0 <= j < |bindings| ==> Simple(bindings[j]) && Available(bindings[j], store)
  }

  /** The extenders of the first `k` bindings. */
  function ExtendersFor(source: nat, bindings: seq<Binding>, prefix: seq<Var>, target: Var, store: Store, k: nat): seq<Extender>
    requires AllSimple(bindings, store) && k <= |bindings|
  {
    if k == 0 then []
    else
      ExtendersFor(source, bindings, prefix, target, store, k - 1) +
      if k - 1 != source && bindings[k - 1].CanExtend(prefix, target)
      then [ExtenderOf(bindings[k - 1], k - 1 >= source, prefix, target, store)] else []
  }

  function Enqueued(b: Binding, index: nat): seq<(nat, Binding)> {
    if b.Not? then [(index, b.binding), (index, b)] else [(index, b)]
  }

  function Queue(bindings: seq<Binding>, from: nat): seq<(nat, Binding)>
    requires from <= |bindings|
    decreases |bindings| - from
  {
    if from == |bindings| then [] else Enqueued(bindings[from], from) + Queue(bindings, from + 1)
  }

  method EnqueueBindings(bindings: seq<Binding>) returns (queue: seq<(nat, Binding)>)
    ensures queue == Queue(bindings, 0)
  {
    queue := [];
    for i := 0 to |bindings|
      invariant queue + Queue(bindings, i) == Queue(bindings, 0)
    {
      if bindings[i].Not? {
        queue := queue + [(i, bindings[i].binding)];
        queue := queue + [(i, bindings[i])];
      } else {
        queue := queue + [(i, bindings[i])];
      }
    }
  }

  /** Adds the extender of one queued binding to the stack. A negation wraps the
      extender it finds on top. */
  function Push(stack: seq<Extender>, b: Binding, neu: bool, prefix: seq<Var>, target: Var, store: Store): seq<Extender>
    requires b.CanExtend(prefix, target) && Available(b, store)
    requires b.Not? ==> stack != []
  {
    ExtendableHasDirection(b, prefix, target);
    match b
    case Not(_) => stack[..|stack| - 1] + [AntijoinExtender(stack[|stack| - 1])]
    case Constant(_, value) => stack + [ConstantExtender(value)]
    case BinaryPredicate(op, x, y) =>
      (match DirectionOf(prefix, x, y)
       case None => stack
       case Some(direction) => stack + [PredicateExtender(op, direction)])
    case Attribute(e, aid, v) =>
      match DirectionOf(prefix, e, v).value
      case Forward(offset) => stack + [ForwardExtender(store[aid], neu, offset)]
      case Reverse(offset) => stack + [ReverseExtender(store[aid], neu, offset)]
  }

  predicate Participates(b: Binding, index: nat, source: nat, prefix: seq<Var>, target: Var) {
    index != source && b.Binds(target).Some? && b.CanExtend(prefix, target)
  }

  /** Pushing all that was queued for one binding adds its extender. */
  lemma PushBinding(stack: seq<Extender>, b: Binding, index: nat, source: nat, prefix: seq<Var>, target: Var, store: Store)
    requires Simple(b) && Available(b, store)
    ensures Participates(b, index, source, prefix, target) <==> index != source && b.CanExtend(prefix, target)
    ensures b.Not? ==> Participates(b.binding, index, source, prefix, target) == Participates(b, index, source, prefix, target)
    ensures Participates(b, index, source, prefix, target) ==>
      var x := [ExtenderOf(b, index >= source, prefix, target, store)];
      if b.Not? then Push(Push(stack, b.binding, index >= source, prefix, target, store), b, index >= source, prefix, target, store)
        == stack + x
      else Push(stack, b, index >= source, prefix, target, store) == stack + x
  {
    ReadyIsUnbound(b, prefix);
    ExtendableHasDirection(b, prefix, target);
    if b.Not? && Participates(b, index, source, prefix, target) {
      ExtendableHasDirection(b.binding, prefix, target);
      var inner := Push(stack, b.binding, index >= source, prefix, target, store);
      assert inner[..|inner| - 1] == stack;
    }
  }

  /** The stack after one queued binding. */
  function Pop(stack: seq<Extender>, entry: (nat, Binding), source: nat, prefix: seq<Var>, target: Var, store: Store): seq<Extender>
    requires Available(entry.1, store)
    requires entry.1.Not? && Participates(entry.1, entry.0, source, prefix, target) ==> stack != []
  {
    if Participates(entry.1, entry.0, source, prefix, target)
    then Push(stack, entry.1, entry.0 >= source, prefix, target, store) else stack
  }

  /** How far the queue has been worked off: the first `k` bindings are done, and
      if `half`, so is what the negation at `k` wraps. */
  ghost predicate Progress(source: nat, bindings: seq<Binding>, prefix: seq<Var>, target: Var, store: Store,
                           queue: seq<(nat, Binding)>, stack: seq<Extender>, k: nat, half: bool)
    requires AllSimple(bindings, store)
  {
    if half then
      && k < |bindings| && bindings[k].Not?
      && queue == [(k, bindings[k])] + Queue(bindings, k + 1)
      && stack == Pop(ExtendersFor(source, bindings, prefix, target, store, k), (k, bindings[k].binding), source, prefix, target, store)
    else
      && k <= |bindings|
      && queue == Queue(bindings, k)
      && stack == ExtendersFor(source, bindings, prefix, target, store, k)
  }

  lemma PopBinding(source: nat, bindings: seq<Binding>, prefix: seq<Var>, target: Var, store: Store, k: nat)
    requires AllSimple(bindings, store) && k < |bindings|
    ensures var b := bindings[k];
      var done := ExtendersFor(source, bindings, prefix, target, store, k);
      var next := ExtendersFor(source, bindings, prefix, target, store, k + 1);
      if b.Not? then
        var inner := Pop(done, (k, b.binding), source, prefix, target, store);
        && (Participates(b, k, source, prefix, target) ==> inner != [])
        && Pop(inner, (k, b), source, prefix, target, store) == next
      else Pop(done, (k, b), source, prefix, target, store) == next
  {
    PushBinding(ExtendersFor(source, bindings, prefix, target, store, k), bindings[k], k, source, prefix, target, store);
  }

  lemma WorkOffStep(source: nat, bindings: seq<Binding>, prefix: seq<Var>, target: Var, store: Store,
                    queue: seq<(nat, Binding)>, stack: seq<Extender>, k: nat, half: bool)
    requires AllSimple(bindings, store) && queue != []
    requires Progress(source, bindings, prefix, target, store, queue, stack, k, half)
    ensures k < |bindings| && Available(queue[0].1, store)
    ensures queue[0].1.Not? && Participates(queue[0].1, queue[0].0, source, prefix, target) ==> stack != []
    ensures var half' := bindings[k].Not? && !half;
      Progress(source, bindings, prefix, target, store, queue[1..], Pop(stack, queue[0], source, prefix, target, store),
               if half' then k else k + 1, half')
  {
    PopBinding(source, bindings, prefix, target, store, k);
    if half {
      assert queue[0] == (k, bindings[k]) && queue[1..] == Queue(bindings, k + 1);
    } else if bindings[k].Not? {
      assert queue[0] == (k, bindings[k].binding) && queue[1..] == [(k, bindings[k])] + Queue(bindings, k + 1);
    } else {
      assert queue[0] == (k, bindings[k]) && queue[1..] == Queue(bindings, k + 1);
    }
  }

  /** The work queue over bindings: a negation is preceded by what it wraps, and
      takes the extender of that off the stack. */
  method CollectExtenders(source: nat, bindings: seq<Binding>, prefix: seq<Var>, target: Var, store: Store)
    returns (extenders: seq<Extender>)
    requires AllSimple(bindings, store)
    ensures extenders == ExtendersFor(source, bindings, prefix, target, store, |bindings|)
  {
    var queue := EnqueueBindings(bindings);
    extenders := [];
    ghost var k, half := 0, false;
    while queue != []
      invariant Progress(source, bindings, prefix, target, store, queue, extenders, k, half)
      decreases |queue|
    {
      WorkOffStep(source, bindings, prefix, target, store, queue, extenders, k, half);
      extenders := Pop(extenders, queue[0], source, prefix, target, store);
      queue := queue[1..];
      half := bindings[k].Not? && !half;
      k := if half then k else k + 1;
    }
  }
}
