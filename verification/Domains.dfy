/** Domains: attributes that share a notion of time. The input epoch moves input
    sessions along, and traces are compacted behind the frontier. */
module Domains {
  import opened Values
  import opened Bindings
  import opened Collections
  import opened Sessions
  import opened Timestamps

  datatype Datom = Datom(e: Value, a: Aid, v: Value, t: Option<nat>, diff: int)

  datatype Result = Success | NotFound(name: Aid) | Conflict

  type Inputs = map<Aid, Session>

  /** The update a datom becomes, under the capability of its session. */
  function Stamp(d: Datom, cap: nat): Update {
    Record((d.e, d.v), if d.t.None? then cap else d.t.value, d.diff)
  }

  /** How many datoms precede the first one for an unknown attribute. */
  function Known(tx: seq<Datom>, names: set<Aid>): (k: nat)
    ensures k <= |tx| && (forall i :: 0 <= i < k ==> tx[i].a in names) && (k < |tx| ==> tx[k].a !in names)
  {
    if tx == [] || tx[0].a !in names then 0 else 1 + Known(tx[1..], names)
  }

  /** A transaction may not write before the capability of a session. */
  ghost predicate InTime(tx: seq<Datom>, inputs: Inputs) {
    forall i :: 0 <= i < Known(tx, inputs.Keys) && tx[i].t.Some? ==> inputs[tx[i].a].cap <= tx[i].t.value
  }

  function PushDatom(inputs: Inputs, d: Datom): Inputs
    requires d.a in inputs
  {
    inputs[d.a := inputs[d.a].Pushed(Stamp(d, inputs[d.a].cap))]
  }

  /** The inputs after the first `k` datoms. */
  function Applied(inputs: Inputs, tx: seq<Datom>, k: nat): (r: Inputs)
    requires k <= Known(tx, inputs.Keys)
    ensures r.Keys == inputs.Keys
  {
    if k == 0 then inputs else PushDatom(Applied(inputs, tx, k - 1), tx[k - 1])
  }

  lemma AppliedOneMore(inputs: Inputs, tx: seq<Datom>, k: nat)
    requires k < |tx| && k <= Known(tx, inputs.Keys)
    ensures k < Known(tx, inputs.Keys) <==> tx[k].a in inputs
    ensures tx[k].a in inputs ==> Applied(inputs, tx, k + 1) == PushDatom(Applied(inputs, tx, k), tx[k])
  {
  }

  /** The updates that the first `k` datoms of a transaction add to attribute `a`. */
  function Additions(tx: seq<Datom>, a: Aid, cap: nat, k: nat): seq<Update>
    requires k <= |tx|
  {
    if k == 0 then [] else Additions(tx, a, cap, k - 1) + if tx[k - 1].a == a then [Stamp(tx[k - 1], cap)] else []
  }

  ghost predicate InputsValid(inputs: Inputs, now: nat) {
    forall a :: a in inputs ==> inputs[a].Valid() && now <= inputs[a].time
  }

  ghost predicate Accepts(s: Session, r: Session, added: seq<Update>) {
    r.Valid() && r.Accepted() == s.Accepted() + added && r.time == s.time && r.cap == s.cap
  }

  lemma AcceptsOneMore(s: Session, r: Session, added: seq<Update>, u: Update)
    requires Accepts(s, r, added) && r.cap <= u.time
    ensures Accepts(s, r.Pushed(u), added + [u])
  {
    PushedAccepts(r, u);
    assert s.Accepted() + added + [u] == s.Accepted() + (added + [u]);
  }

  /** Every session accepts its own datoms, in order, and nothing else changes. */
  lemma {:induction false} AppliedAccepts(inputs: Inputs, tx: seq<Datom>, k: nat, a: Aid)
    requires k <= Known(tx, inputs.Keys) && InTime(tx, inputs)
    requires a in inputs && inputs[a].Valid()
    ensures Accepts(inputs[a], Applied(inputs, tx, k)[a], Additions(tx, a, inputs[a].cap, k))
  {
    if k != 0 {
      AppliedAccepts(inputs, tx, k - 1, a);
      var before, d := Applied(inputs, tx, k - 1), tx[k - 1];
      if d.a == a {
        AcceptsOneMore(inputs[a], before[a], Additions(tx, a, inputs[a].cap, k - 1), Stamp(d, before[a].cap));
      } else {
        assert Applied(inputs, tx, k)[a] == before[a];
        assert Additions(tx, a, inputs[a].cap, k) == Additions(tx, a, inputs[a].cap, k - 1);
      }
    }
  }

  lemma AppliedStaysValid(inputs: Inputs, tx: seq<Datom>, k: nat, now: nat)
    requires k <= Known(tx, inputs.Keys) && InTime(tx, inputs) && InputsValid(inputs, now)
    ensures InputsValid(Applied(inputs, tx, k), now)
  {
    forall a | a in inputs ensures Applied(inputs, tx, k)[a].Valid() && now <= Applied(inputs, tx, k)[a].time {
      AppliedAccepts(inputs, tx, k, a);
    }
  }

  //
  // What a transaction writes, read off the datoms themselves
  //

  /** The positions of the datoms for attribute `a` among the first `k`. */
  function Picks(tx: seq<Datom>, a: Aid, k: nat): seq<nat>
    requires k <= |tx|
  {
    if k == 0 then [] else Picks(tx, a, k - 1) + if tx[k - 1].a == a then [k - 1] else []
  }

  lemma {:induction false} PicksAre(tx: seq<Datom>, a: Aid, k: nat)
    requires k <= |tx|
    ensures forall i :: i in Picks(tx, a, k) <==> 0 <= i < k && tx[i].a == a
    ensures forall i, j :: 0 <= i < j < |Picks(tx, a, k)| ==> Picks(tx, a, k)[i] < Picks(tx, a, k)[j]
  {
    if k != 0 {
      PicksAre(tx, a, k - 1);
      var front := Picks(tx, a, k - 1);
      forall i | 0 <= i < |front| ensures front[i] < k - 1 { assert front[i] in front; }
    }
  }

  /** These updates are the datoms for attribute `a` among the first `k`, in order:
      entity, value and diff as given, at the given time or else at the capability. */
  ghost predicate Records(tx: seq<Datom>, a: Aid, cap: nat, k: nat, added: seq<Update>)
    requires k <= |tx|
  {
    var picks := Picks(tx, a, k);
    |added| == |picks| && forall j :: 0 <= j < |added| ==> picks[j] < |tx| && IsDatom(added[j], tx[picks[j]], cap)
  }

  predicate IsDatom(u: Update, d: Datom, cap: nat) {
    && u.data.0 == d.e && u.data.1 == d.v && u.diff == d.diff
    && (d.t.Some? ==> u.time == d.t.value) && (d.t.None? ==> u.time == cap)
  }

  lemma {:induction false} AdditionsAreRecords(tx: seq<Datom>, a: Aid, cap: nat, k: nat)
    requires k <= |tx|
    ensures Records(tx, a, cap, k, Additions(tx, a, cap, k))
  {
    if k != 0 { AdditionsAreRecords(tx, a, cap, k - 1); }
  }

  /** The diffs that the first `k` datoms write for a pair of attribute `a` at time `t`. */
  ghost function Written(tx: seq<Datom>, a: Aid, e: Value, v: Value, t: nat, cap: nat, k: nat): int
    requires k <= |tx|
  {
    if k == 0 then 0
    else
      var d := tx[k - 1];
      Written(tx, a, e, v, t, cap, k - 1) +
      if d.a == a && d.e == e && d.v == v && (d.t == Some(t) || (d.t.None? && cap == t)) then d.diff else 0
  }

  lemma {:induction false} AdditionsSum(tx: seq<Datom>, a: Aid, cap: nat, k: nat, e: Value, v: Value, t: nat)
    requires k <= |tx|
    ensures Net(Additions(tx, a, cap, k), (e, v), t) == Written(tx, a, e, v, t, cap, k)
  {
    if k != 0 {
      AdditionsSum(tx, a, cap, k - 1, e, v, t);
      var last := if tx[k - 1].a == a then [Stamp(tx[k - 1], cap)] else [];
      NetConcat(Additions(tx, a, cap, k - 1), last, (e, v), t);
      if last != [] { assert last[1..] == []; }
    }
  }

  /** A session goes on by exactly the datoms of its attribute. */
  ghost predicate Writes(s: Session, r: Session, tx: seq<Datom>, a: Aid, k: nat)
    requires k <= |tx|
  {
    && r.time == s.time && r.cap == s.cap && s.Accepted() <= r.Accepted()
    && Records(tx, a, s.cap, k, r.Accepted()[|s.Accepted()|..])
  }

  /** All sessions write their part of a transaction, and there are no others. */
  ghost predicate AllWrite(before: Inputs, after: Inputs, tx: seq<Datom>, k: nat)
    requires k <= |tx|
  {
    after.Keys == before.Keys && forall a :: a in before ==> Writes(before[a], after[a], tx, a, k)
  }

  lemma AppliedWrites(inputs: Inputs, tx: seq<Datom>, k: nat)
    requires k <= Known(tx, inputs.Keys) && InTime(tx, inputs) && InputsValid(inputs, 0)
    ensures AllWrite(inputs, Applied(inputs, tx, k), tx, k)
  {
    forall a | a in inputs ensures Writes(inputs[a], Applied(inputs, tx, k)[a], tx, a, k) {
      AppliedAccepts(inputs, tx, k, a);
      AdditionsAreRecords(tx, a, inputs[a].cap, k);
      var before, added := inputs[a].Accepted(), Additions(tx, a, inputs[a].cap, k);
      assert (before + added)[|before|..] == added;
    }
  }

  lemma AppliedWritesIf(inputs: Inputs, tx: seq<Datom>)
    ensures var k := Known(tx, inputs.Keys);
      InTime(tx, inputs) && InputsValid(inputs, 0) ==> AllWrite(inputs, Applied(inputs, tx, k), tx, k)
  {
    if InTime(tx, inputs) && InputsValid(inputs, 0) { AppliedWrites(inputs, tx, Known(tx, inputs.Keys)); }
  }

  /** A transaction is in time exactly if none of its known datoms is earlier than
      the capability of its session. */
  lemma InTimeIff(tx: seq<Datom>, inputs: Inputs)
    ensures InTime(tx, inputs) <==> forall i, t :: 0 <= i < Known(tx, inputs.Keys) && tx[i].t == Some(t) ==> inputs[tx[i].a].cap <= t
  {
  }

  function AdvanceOne(s: Session, next: nat): Session { s.(time := next).Flushed() }

  function AdvanceSome(inputs: Inputs, done: set<Aid>, next: nat): Inputs {
    map a | a in inputs :: if a in done then AdvanceOne(inputs[a], next) else inputs[a]
  }

  function AdvanceAll(inputs: Inputs, next: nat): Inputs { AdvanceSome(inputs, inputs.Keys, next) }

  /** All sessions are exactly at `next`, flushed, and nothing is lost. */
  ghost predicate AdvancedTo(before: Inputs, after: Inputs, next: nat) {
    && after.Keys == before.Keys
    && forall a :: a in before ==>
      && after[a].time == after[a].cap == next && after[a].buffer == []
      && Handed(after[a].sent) == before[a].Accepted()
  }

  lemma AdvanceSomeStep(inputs: Inputs, done: set<Aid>, a: Aid, next: nat)
    requires a in inputs && a !in done
    ensures AdvanceSome(inputs, done, next).Keys == inputs.Keys
    ensures AdvanceSome(inputs, done, next)[a := AdvanceOne(AdvanceSome(inputs, done, next)[a], next)] ==
      AdvanceSome(inputs, done + {a}, next)
  {
  }

  lemma AdvanceAllHandsOver(inputs: Inputs, now: nat, next: nat)
    requires InputsValid(inputs, now) && forall a :: a in inputs ==> inputs[a].time <= next
    ensures InputsValid(AdvanceAll(inputs, next), next) && AdvancedTo(inputs, AdvanceAll(inputs, next), next)
    ensures forall a :: a in inputs ==>
      var s := AdvanceAll(inputs, next)[a];
      s.time == s.cap == next && s.buffer == [] && s.Accepted() == inputs[a].Accepted() == Handed(s.sent)
  {
    forall a | a in inputs
      ensures var s := AdvanceAll(inputs, next)[a];
        s.Valid() && s.time == s.cap == next && s.buffer == [] && s.Accepted() == inputs[a].Accepted() == Handed(s.sent)
    {
      FlushedHandsOver(inputs[a].(time := next));
    }
  }

  //
  // Runs
  //

  datatype Operation = Transact(tx: seq<Datom>) | AdvanceEpoch(next: nat) | CloseInput(name: Aid) | Compose(other: Inlet)

  /** The epoch, the open inputs, and the inputs closed so far. */
  datatype Inlet = Inlet(now: nat, inputs: Inputs, closed: map<Aid, Session>)
  {
    ghost predicate Valid() {
      && InputsValid(inputs, now)
      && closed.Keys !! inputs.Keys
      && (forall a :: a in closed ==> closed[a].Valid() && closed[a].buffer == [])
    }

    function Names(): set<Aid> { inputs.Keys + closed.Keys }

    /** All that attribute `a` has accepted so far. */
    function Accepted(a: Aid): seq<Update> {
      if a in inputs then inputs[a].Accepted() else if a in closed then closed[a].Accepted() else []
    }

    /** All of it that was handed to the dataflow. */
    function Delivered(a: Aid): seq<Update> {
      if a in inputs then Handed(inputs[a].sent) else if a in closed then Handed(closed[a].sent) else []
    }
  }

  /** What the assertions in the code demand of an operation. */
  ghost predicate Admissible(s: Inlet, op: Operation) {
    match op
    case Transact(tx) => InTime(tx, s.inputs)
    case AdvanceEpoch(next) => s.now < next ==> forall a :: a in s.inputs ==> s.inputs[a].time <= next
    case CloseInput(_) => true
    case Compose(other) => other.Valid() && s.Names() !! other.Names()
  }

  function Step(s: Inlet, op: Operation): Inlet {
    match op
    case Transact(tx) => s.(inputs := Applied(s.inputs, tx, Known(tx, s.inputs.Keys)))
    case AdvanceEpoch(next) => if s.now < next then s.(now := next, inputs := AdvanceAll(s.inputs, next)) else s
    case CloseInput(name) =>
      if name in s.inputs
      then s.(inputs := s.inputs - {name}, closed := s.closed[name := s.inputs[name].Flushed()])
      else s
    case Compose(other) =>
      Inlet(if s.now < other.now then s.now else other.now, s.inputs + other.inputs, s.closed + other.closed)
  }

  /** The updates an operation adds to attribute `a`. */
  function Added(s: Inlet, op: Operation, a: Aid): seq<Update> {
    if op.Transact? && a in s.inputs then Additions(op.tx, a, s.inputs[a].cap, Known(op.tx, s.inputs.Keys))
    else if op.Compose? then op.other.Accepted(a)
    else []
  }

  /** From `s` to `e` attribute `a` accepts `added`. */
  ghost predicate Keeps(s: Inlet, e: Inlet, added: seq<Update>, a: Aid) {
    e.Valid() && e.Accepted(a) == s.Accepted(a) + added
  }

  lemma TransactKeepsAll(s: Inlet, tx: seq<Datom>, a: Aid)
    requires s.Valid() && InTime(tx, s.inputs)
    ensures Keeps(s, Step(s, Transact(tx)), Added(s, Transact(tx), a), a)
  {
    var k := Known(tx, s.inputs.Keys);
    AppliedStaysValid(s.inputs, tx, k, s.now);
    if a in s.inputs { AppliedAccepts(s.inputs, tx, k, a); }
  }

  lemma TransactIs(s: Inlet, tx: seq<Datom>)
    requires s.Valid() && InTime(tx, s.inputs)
    ensures var e := Step(s, Transact(tx));
      e.Valid() && e.Names() == s.Names() && e.now == s.now && e.closed == s.closed && AllWrite(s.inputs, e.inputs, tx, Known(tx, s.inputs.Keys))
  {
    TransactKeepsAll(s, tx, []);
    assert InputsValid(s.inputs, 0);
    AppliedWrites(s.inputs, tx, Known(tx, s.inputs.Keys));
  }

  lemma CloseIs(s: Inlet, name: Aid)
    requires s.Valid() && name in s.inputs
    ensures var e := Step(s, CloseInput(name));
      && e.Valid() && e.Names() == s.Names() && e.now == s.now && e.inputs == s.inputs - {name}
      && e.closed == s.closed[name := s.inputs[name].Flushed()]
      && Handed(e.closed[name].sent) == s.inputs[name].Accepted()
  {
    CloseKeepsAll(s, name, name);
    FlushedHandsOver(s.inputs[name]);
  }

  lemma AdvanceKeepsAll(s: Inlet, next: nat, a: Aid)
    requires s.Valid() && Admissible(s, AdvanceEpoch(next))
    ensures Keeps(s, Step(s, AdvanceEpoch(next)), [], a)
  {
    if s.now < next { AdvanceAllHandsOver(s.inputs, s.now, next); }
  }

  lemma CloseKeepsAll(s: Inlet, name: Aid, a: Aid)
    requires s.Valid()
    ensures Keeps(s, Step(s, CloseInput(name)), [], a)
  {
    if name in s.inputs { FlushedHandsOver(s.inputs[name]); }
  }

  lemma ComposeKeepsAll(s: Inlet, other: Inlet, a: Aid)
    requires s.Valid() && Admissible(s, Compose(other))
    ensures Keeps(s, Step(s, Compose(other)), other.Accepted(a), a)
  {
    var e := Step(s, Compose(other));
    assert a in s.Names() ==> a !in other.Names();
    assert e.Accepted(a) == if a in s.Names() then s.Accepted(a) else other.Accepted(a);
  }

  lemma ComposeStaysValid(s: Inlet, other: Inlet, mine: set<Aid>, theirs: set<Aid>)
    requires s.Valid() && other.Valid() && s.Names() <= mine && other.Names() <= theirs && mine !! theirs
    ensures Admissible(s, Compose(other))
    ensures Step(s, Compose(other)).Valid() && Step(s, Compose(other)).Names() <= mine + theirs
  {
    assert s.Names() !! other.Names();
    ComposeKeepsAll(s, other, []);
  }

  lemma StepKeepsAll(s: Inlet, op: Operation, a: Aid)
    requires s.Valid() && Admissible(s, op)
    ensures Keeps(s, Step(s, op), Added(s, op, a), a)
  {
    match op
    case Transact(tx) => TransactKeepsAll(s, tx, a);
    case AdvanceEpoch(next) => AdvanceKeepsAll(s, next, a);
    case CloseInput(name) => CloseKeepsAll(s, name, a);
    case Compose(other) => ComposeKeepsAll(s, other, a);
  }

  function Run(s: Inlet, ops: seq<Operation>): Inlet
    decreases |ops|
  {
    if ops == [] then s else Run(Step(s, ops[0]), ops[1..])
  }

  ghost predicate AllAdmissible(s: Inlet, ops: seq<Operation>)
    decreases |ops|
  {
    ops != [] ==> Admissible(s, ops[0]) && AllAdmissible(Step(s, ops[0]), ops[1..])
  }

  /** All updates a run adds to attribute `a`, in order. */
  function AddedByRun(s: Inlet, ops: seq<Operation>, a: Aid): seq<Update>
    decreases |ops|
  {
    if ops == [] then [] else Added(s, ops[0], a) + AddedByRun(Step(s, ops[0]), ops[1..], a)
  }

  lemma KeepsCompose(s: Inlet, m: Inlet, e: Inlet, x: seq<Update>, y: seq<Update>, a: Aid)
    requires Keeps(s, m, x, a) && Keeps(m, e, y, a)
    ensures Keeps(s, e, x + y, a)
  {
    assert (s.Accepted(a) + x) + y == s.Accepted(a) + (x + y);
  }

  lemma {:induction false} RunKeepsAll(s: Inlet, ops: seq<Operation>, a: Aid)
    requires s.Valid() && AllAdmissible(s, ops)
    ensures Keeps(s, Run(s, ops), AddedByRun(s, ops, a), a)
    decreases |ops|
  {
    if ops != [] {
      var next := Step(s, ops[0]);
      StepKeepsAll(s, ops[0], a);
      RunKeepsAll(next, ops[1..], a);
      KeepsCompose(s, next, Run(next, ops[1..]), Added(s, ops[0], a), AddedByRun(next, ops[1..], a), a);
    }
  }

  /** Only composition takes the epoch back. */
  lemma {:induction false} RunNeverRewinds(s: Inlet, ops: seq<Operation>)
    requires forall i :: 0 <= i < |ops| ==> !ops[i].Compose?
    ensures s.now <= Run(s, ops).now
    decreases |ops|
  {
    if ops != [] { RunNeverRewinds(Step(s, ops[0]), ops[1..]); }
  }

  /** After any run, what was delivered for an attribute is an initial part of
      what it accepted, each datom once and in order; all of it once the input is
      closed or the epoch has just advanced. */
  lemma RunDeliversOnce(s: Inlet, ops: seq<Operation>, a: Aid)
    requires s.Valid() && AllAdmissible(s, ops)
    ensures var e := Run(s, ops);
      && e.Delivered(a) <= s.Accepted(a) + AddedByRun(s, ops, a)
      && (a in e.closed || (a in e.inputs && e.inputs[a].buffer == []) ==> e.Delivered(a) == s.Accepted(a) + AddedByRun(s, ops, a))
  {
    RunKeepsAll(s, ops, a);
  }

  lemma {:induction false} RunAppend(s: Inlet, ops: seq<Operation>, op: Operation)
    ensures Run(s, ops + [op]) == Step(Run(s, ops), op)
    ensures AllAdmissible(s, ops + [op]) <==> AllAdmissible(s, ops) && Admissible(Run(s, ops), op)
    decreases |ops|
  {
    var all := ops + [op];
    if ops == [] {
      assert all == [op] && all[1..] == [];
    } else {
      assert all[0] == ops[0] && all[1..] == ops[1..] + [op];
      RunAppend(Step(s, ops[0]), ops[1..], op);
    }
  }

  /** After a run that ends with an effective epoch advance, all open inputs are at
      the epoch and everything they have accepted was delivered. */
  lemma AdvanceDeliversAll(s: Inlet, ops: seq<Operation>, next: nat, a: Aid)
    requires s.Valid() && AllAdmissible(s, ops + [AdvanceEpoch(next)]) && Run(s, ops).now < next
    requires a in Run(s, ops + [AdvanceEpoch(next)]).inputs
    ensures var e := Run(s, ops + [AdvanceEpoch(next)]);
      && e.now == next == e.inputs[a].time == e.inputs[a].cap && e.inputs[a].buffer == []
      && e.Delivered(a) == e.Accepted(a) == s.Accepted(a) + AddedByRun(s, ops, a)
  {
    RunAppend(s, ops, AdvanceEpoch(next));
    RunKeepsAll(s, ops, a);
    AdvanceAllHandsOver(Run(s, ops).inputs, Run(s, ops).now, next);
  }

  //
  // Capabilities of shipments
  //

  lemma ShipsOn(x: seq<Shipment>, y: seq<Shipment>, z: seq<Shipment>, t: nat, u: nat)
    requires ShipsFrom(x, y, t) && ShipsFrom(y, z, u) && t <= u
    ensures ShipsFrom(x, z, t)
  {
  }

  /** From one state of a session to the next, capabilities only go up. */
  ghost predicate GoesUp(s: Session, r: Session) {
    s.cap <= r.cap && ShipsFrom(s.sent, r.sent, s.cap) && Ascending(r.sent, r.cap)
  }

  lemma GoesUpOn(s: Session, m: Session, r: Session)
    requires GoesUp(s, m) && GoesUp(m, r)
    ensures GoesUp(s, r)
  {
    ShipsOn(s.sent, m.sent, r.sent, s.cap, m.cap);
  }

  lemma {:induction false} AppliedGoesUp(inputs: Inputs, tx: seq<Datom>, k: nat, a: Aid)
    requires k <= Known(tx, inputs.Keys) && InTime(tx, inputs)
    requires a in inputs && inputs[a].Valid() && Ascending(inputs[a].sent, inputs[a].cap)
    ensures GoesUp(inputs[a], Applied(inputs, tx, k)[a])
  {
    if k != 0 {
      AppliedGoesUp(inputs, tx, k - 1, a);
      var before, d := Applied(inputs, tx, k - 1), tx[k - 1];
      assert before[a].Valid() by { AppliedAccepts(inputs, tx, k - 1, a); }
      if d.a == a {
        PushedAscends(before[a], Stamp(d, before[a].cap));
        GoesUpOn(inputs[a], before[a], before[a].Pushed(Stamp(d, before[a].cap)));
      } else {
        assert Applied(inputs, tx, k)[a] == before[a];
      }
    }
  }

  /** The session behind an attribute, open or closed. */
  function SessionOf(s: Inlet, a: Aid): Option<Session> {
    if a in s.inputs then Some(s.inputs[a]) else if a in s.closed then Some(s.closed[a]) else None
  }

  ghost predicate GoesOn(s: Inlet, e: Inlet, a: Aid) {
    SessionOf(s, a).Some? && SessionOf(e, a).Some? && GoesUp(SessionOf(s, a).value, SessionOf(e, a).value)
  }

  ghost predicate Orderly(s: Inlet, a: Aid) {
    SessionOf(s, a).Some? && Ascending(SessionOf(s, a).value.sent, SessionOf(s, a).value.cap)
  }

  lemma StepGoesOn(s: Inlet, op: Operation, a: Aid)
    requires s.Valid() && Admissible(s, op) && Orderly(s, a)
    ensures GoesOn(s, Step(s, op), a)
  {
    match op
    case Transact(tx) => if a in s.inputs { AppliedGoesUp(s.inputs, tx, Known(tx, s.inputs.Keys), a); }
    case AdvanceEpoch(next) => if s.now < next && a in s.inputs { FlushedAscends(s.inputs[a].(time := next)); }
    case CloseInput(name) => if name in s.inputs && a == name { FlushedAscends(s.inputs[a]); }
    case Compose(other) => assert a in s.Names() && a !in other.Names();
  }

  /** Whatever happens to an input from now on, nothing it ships carries an earlier
      capability than it holds now (after an advance to `t`, that is `t`), and the
      capabilities of its shipments never decrease. */
  lemma {:induction false} RunGoesOn(s: Inlet, ops: seq<Operation>, a: Aid)
    requires s.Valid() && AllAdmissible(s, ops) && Orderly(s, a)
    ensures GoesOn(s, Run(s, ops), a)
    decreases |ops|
  {
    if ops != [] {
      var next := Step(s, ops[0]);
      StepKeepsAll(s, ops[0], a);
      StepGoesOn(s, ops[0], a);
      RunGoesOn(next, ops[1..], a);
      GoesUpOn(SessionOf(s, a).value, SessionOf(next, a).value, SessionOf(Run(s, ops), a).value);
    }
  }

  /** Everything that was ever shipped for an attribute. */
  function Shipped(s: Inlet, a: Aid): seq<Shipment> {
    if a in s.inputs then s.inputs[a].sent else if a in s.closed then s.closed[a].sent else []
  }

  /** No update is shipped under a capability later than its own time, whether its
      input is open or closed, and the epoch is a lower bound of every session's
      time. */
  lemma RunShipsInTime(s: Inlet, ops: seq<Operation>, a: Aid)
    requires s.Valid() && AllAdmissible(s, ops)
    ensures var e := Run(s, ops);
      && (a in e.inputs ==> e.now <= e.inputs[a].time)
      && forall shipment, r :: shipment in Shipped(e, a) && r in shipment.records ==> shipment.capability <= r.time
  {
    RunKeepsAll(s, ops, a);
  }

  //
  // Traces
  //

  datatype TraceKind = ForwardCount | ForwardPropose | ForwardValidate | ReverseCount | ReversePropose | ReverseValidate

  /** How far each installed trace may be compacted. */
  type Traces = map<(TraceKind, Aid), nat>

  /** The traces of an attribute with a configured slack follow the frontier at
      that slack; traces without one stay where they are. */
  function Slackened(traces: Traces, attributes: map<Aid, Option<nat>>, done: set<Aid>, frontier: nat): Traces {
    map k | k in traces ::
      if k.1 in done && k.1 in attributes && attributes[k.1].Some? then Rewind(frontier, attributes[k.1].value) else traces[k]
  }

  /** No trace follows the frontier past it; all that follow lag by exactly their
      slack once the frontier has reached it, and are at the frontier before that.
      Traces of attributes without a slack stay where they are. */
  lemma SlackenedNeverPasses(traces: Traces, attributes: map<Aid, Option<nat>>, frontier: nat, k: (TraceKind, Aid))
    requires k in traces
    ensures var after := Slackened(traces, attributes, attributes.Keys, frontier);
      && after.Keys == traces.Keys
      && (k.1 !in attributes || attributes[k.1].None? ==> after[k] == traces[k])
      && (k.1 in attributes && attributes[k.1].Some? ==>
            after[k] == if attributes[k.1].value <= frontier then frontier - attributes[k.1].value else frontier)
      && (traces[k] <= frontier ==> after[k] <= frontier)
  {
    if k.1 in attributes && attributes[k.1].Some? { RewindLags(frontier, attributes[k.1].value); }
  }

  ghost predicate TracesBehind(traces: Traces, frontier: nat) {
    forall k :: k in traces ==> traces[k] <= frontier
  }

  lemma SlackenedStayBehind(traces: Traces, attributes: map<Aid, Option<nat>>, last: nat, frontier: nat)
    requires TracesBehind(traces, last) && last <= frontier
    ensures TracesBehind(Slackened(traces, attributes, attributes.Keys, frontier), frontier)
  {
    forall k | k in traces ensures Slackened(traces, attributes, attributes.Keys, frontier)[k] <= frontier {
      SlackenedNeverPasses(traces, attributes, frontier, k);
    }
  }

  /** Moves the traces of one attribute after the other. */
  method SlackenAll(before: Traces, attributes: map<Aid, Option<nat>>, frontier: nat) returns (traces: Traces)
    ensures traces == Slackened(before, attributes, attributes.Keys, frontier)
  {
    traces := before;
    var rest := attributes.Keys;
    while rest != {}
      invariant rest <= attributes.Keys
      invariant traces == Slackened(before, attributes, attributes.Keys - rest, frontier)
      decreases |rest|
    {
      var a :| a in rest;
      if attributes[a].Some? {
        var to := Rewind(frontier, attributes[a].value);
        traces := map k | k in traces :: if k.1 == a then to else traces[k];
      }
      rest := rest - {a};
    }
  }

  /** Pushes datoms into their sessions until one names an unknown attribute. */
  method ApplyDatoms(before: Inputs, tx: seq<Datom>) returns (r: Result, inputs: Inputs)
    ensures inputs == Applied(before, tx, Known(tx, before.Keys))
    ensures InTime(tx, before) && InputsValid(before, 0) ==> AllWrite(before, inputs, tx, Known(tx, before.Keys))
    ensures var k := Known(tx, before.Keys); r == if k < |tx| then NotFound(tx[k].a) else Success
  {
    AppliedWritesIf(before, tx);
    inputs := before;
    for i := 0 to |tx|
      invariant i <= Known(tx, before.Keys)
      invariant inputs == Applied(before, tx, i)
    {
      AppliedOneMore(before, tx, i);
      if tx[i].a !in inputs { return NotFound(tx[i].a), inputs; }
      inputs := PushDatom(inputs, tx[i]);
    }
    r := Success;
  }

  /** A domain owns its sessions, so they are values here; what their methods do
      to them is proved for `UnorderedSession`. */
  class Domain {
    var nowAt: nat
    var lastAdvance: nat
    var inputs: Inputs
    /** The frontier of the probed sources; none once all have ceased. */
    var probe: Option<nat>
    var probedSourceCount: nat
    /** The attributes with their configured trace slack. */
    var attributes: map<Aid, Option<nat>>
    var traces: Traces
    /** The inputs closed so far. */
    ghost var closed: map<Aid, Session>

    ghost function State(): Inlet
      reads this
    {
      Inlet(nowAt, inputs, closed)
    }

    /** The epoch is a lower bound of every session's time, and every input
        belongs to an attribute. */
    ghost predicate Valid()
      reads this
    {
      State().Valid() && State().Names() <= attributes.Keys
    }

    constructor (start: nat)
      ensures Valid() && State() == Inlet(start, map[], map[]) && lastAdvance == 0 && probedSourceCount == 0
      ensures attributes == map[] && traces == map[]
    {
      nowAt, lastAdvance, inputs, probe, probedSourceCount := start, 0, map[], None, 0;
      attributes, traces, closed := map[], map[], map[];
    }

    /** Transacts datoms up to the first one for an unknown attribute. */
    method Transact(tx: seq<Datom>) returns (r: Result)
      requires Valid() && InTime(tx, inputs)
      modifies this`inputs
      ensures Admissible(old(State()), Operation.Transact(tx))
      ensures Valid() && State() == Step(old(State()), Operation.Transact(tx))
      ensures AllWrite(old(inputs), inputs, tx, Known(tx, old(inputs).Keys))
      ensures var k := Known(tx, old(inputs).Keys); r == if k < |tx| then NotFound(tx[k].a) else Success
    {
      TransactIs(State(), tx);
      ghost var after := Step(State(), Operation.Transact(tx));
      r, inputs := ApplyDatoms(inputs, tx);
      assert State() == after;
    }

    /** Closes an input, handing over what it still buffers. */
    method CloseInput(name: Aid) returns (r: Result)
      requires Valid()
      modifies this`inputs, this`closed
      ensures Admissible(old(State()), Operation.CloseInput(name))
      ensures Valid() && State() == Step(old(State()), Operation.CloseInput(name))
      ensures r == if name in old(inputs) then Success else NotFound(name)
      ensures inputs == old(inputs) - {name}
      ensures name in old(inputs) ==> name in closed && Handed(closed[name].sent) == old(inputs)[name].Accepted()
      ensures closed.Keys == old(closed).Keys + (if name in old(inputs) then {name} else {})
      ensures forall a :: a in old(closed) && a != name ==> closed[a] == old(closed)[a]
    {
      if name !in inputs { return NotFound(name); }
      CloseIs(State(), name);
      ghost var after := Step(State(), Operation.CloseInput(name));
      closed := closed[name := inputs[name].Flushed()];
      inputs := inputs - {name};
      assert State() == after;
      r := Success;
    }

    /** Forwards every session and flushes it. */
    method AdvanceSessions(next: nat)
      modifies this`inputs
      ensures inputs == AdvanceAll(old(inputs), next)
    {
      var rest := inputs.Keys;
      while rest != {}
        invariant rest <= old(inputs).Keys
        invariant inputs == AdvanceSome(old(inputs), old(inputs).Keys - rest, next)
        decreases |rest|
      {
        var a :| a in rest;
        AdvanceSomeStep(old(inputs), old(inputs).Keys - rest, a, next);
        inputs := inputs[a := AdvanceOne(inputs[a], next)];
        assert old(inputs).Keys - (rest - {a}) == old(inputs).Keys - rest + {a};
        rest := rest - {a};
      }
    }

    /** The epoch only moves forward; an effective advance leaves all sessions
        exactly at the new epoch, flushed. */
    method AdvanceEpoch(next: nat) returns (r: Result)
      requires Valid()
      requires nowAt < next ==> forall a :: a in inputs ==> inputs[a].time <= next
      modifies this`nowAt, this`inputs
      ensures Admissible(old(State()), Operation.AdvanceEpoch(next))
      ensures Valid() && State() == Step(old(State()), Operation.AdvanceEpoch(next))
      ensures r == if next < old(nowAt) then Conflict else Success
      ensures old(nowAt) < next ==> nowAt == next && AdvancedTo(old(inputs), inputs, next)
      ensures next <= old(nowAt) ==> nowAt == old(nowAt) && inputs == old(inputs)
    {
      if next < nowAt { return Conflict; }
      if nowAt != next {
        AdvanceAllHandsOver(inputs, nowAt, next);
        AdvanceSessions(next);
        nowAt := next;
      }
      r := Success;
    }

    /** Allows the traces to compact up to the frontier minus their slack. */
    method AdvanceTraces(frontier: nat)
      modifies this`lastAdvance, this`traces
      ensures lastAdvance == if old(lastAdvance) < frontier then frontier else old(lastAdvance)
      ensures traces == if old(lastAdvance) < frontier then Slackened(old(traces), attributes, attributes.Keys, frontier) else old(traces)
    {
      if lastAdvance < frontier {
        lastAdvance := frontier;
        traces := SlackenAll(traces, attributes, frontier);
      }
    }

    predicate Live()
      reads this
    {
      probedSourceCount > 0 && probe.Some?
    }

    /** Advances the domain to the frontier of its sources, or to its own epoch if
        no source is live. With no session ahead of a live frontier it never
        fails, and neither the epoch nor the last advance move back. */
    method Advance() returns (r: Result)
      requires Valid()
      requires Live() && nowAt < probe.value ==> forall a :: a in inputs ==> inputs[a].time <= probe.value
      modifies this`nowAt, this`lastAdvance, this`traces, this`inputs
      ensures Valid() && r == Success
      ensures State() == if Live() then Step(old(State()), Operation.AdvanceEpoch(probe.value)) else old(State())
      ensures nowAt == if probedSourceCount > 0 && probe.Some? && old(nowAt) < probe.value then probe.value else old(nowAt)
      ensures if old(nowAt) < nowAt then AdvancedTo(old(inputs), inputs, nowAt) else inputs == old(inputs)
      ensures var frontier := if Live() then probe.value else nowAt;
        && lastAdvance == (if old(lastAdvance) < frontier then frontier else old(lastAdvance))
        && traces == (if old(lastAdvance) < frontier then Slackened(old(traces), attributes, attributes.Keys, frontier) else old(traces))
      ensures TracesBehind(old(traces), old(lastAdvance)) ==> TracesBehind(traces, lastAdvance)
    {
      ghost var frontier := if Live() then probe.value else nowAt;
      if TracesBehind(traces, lastAdvance) && lastAdvance < frontier {
        SlackenedStayBehind(traces, attributes, lastAdvance, frontier);
      }
      r := Success;
      if probedSourceCount == 0 {
        AdvanceTraces(nowAt);
      } else if probe.None? {
        AdvanceTraces(nowAt);
      } else {
        if !(probe.value <= nowAt) { r := AdvanceEpoch(probe.value); }
        if r == Success { AdvanceTraces(probe.value); }
      }
    }

    /** Composition: attributes must not clash, and only one side may have sources.
        The epoch drops to the earlier of the two. */
    method Compose(other: Domain)
      requires Valid() && other.Valid() && other != this
      requires attributes.Keys !! other.attributes.Keys
      requires probedSourceCount == 0 || other.probedSourceCount == 0
      modifies this
      ensures Admissible(old(State()), Operation.Compose(other.State()))
      ensures Valid() && State() == Step(old(State()), Operation.Compose(other.State()))
      ensures nowAt == if old(nowAt) < other.nowAt then old(nowAt) else other.nowAt
      ensures inputs == old(inputs) + other.inputs && closed == old(closed) + other.closed
      ensures lastAdvance == old(lastAdvance)
      ensures attributes == old(attributes) + other.attributes && traces == old(traces) + other.traces
      ensures if old(probedSourceCount) == 0 then probe == other.probe && probedSourceCount == other.probedSourceCount
              else probe == old(probe) && probedSourceCount == old(probedSourceCount)
    {
      ComposeStaysValid(State(), other.State(), attributes.Keys, other.attributes.Keys);
      ghost var composed := Step(State(), Operation.Compose(other.State()));
      nowAt := if nowAt < other.nowAt then nowAt else other.nowAt;
      inputs := inputs + other.inputs;
      closed := closed + other.closed;
      if probedSourceCount == 0 {
        probe, probedSourceCount := other.probe, other.probedSourceCount;
      }
      attributes, traces := attributes + other.attributes, traces + other.traces;
      assert State() == composed;
    }
  }

  /** All sessions are exactly at the epoch, as an effective advance leaves them. */
  ghost predicate AllAtEpoch(s: Inlet) {
    forall a :: a in s.inputs ==> s.inputs[a].time == s.now
  }

  /** Composition can leave sessions ahead of the epoch: advancing the epoch then
      trips an assertion exactly if it falls between the two epochs and the side
      that is ahead has inputs. */
  lemma ComposedAdvanceIff(s: Inlet, other: Inlet, next: nat)
    requires AllAtEpoch(s) && AllAtEpoch(other) && s.Names() !! other.Names()
    ensures Admissible(Step(s, Compose(other)), AdvanceEpoch(next)) <==>
      !(other.now < next < s.now && s.inputs != map[]) && !(s.now < next < other.now && other.inputs != map[])
  {
    var c := Step(s, Compose(other));
    if s.inputs != map[] {
      var a :| a in s.inputs;
      assert a in s.Names() && a !in other.Names() && c.inputs[a].time == s.now;
    }
    if other.inputs != map[] {
      var a :| a in other.inputs;
      assert c.inputs[a].time == other.now;
    }
  }
}
