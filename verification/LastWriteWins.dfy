/** Last-write-wins attributes: at most one value per entity, earlier values are
    retracted when a new one is written. */
module LastWrites {
  import opened Values
  import opened Bindings
  import opened Collections
  import opened Extenders
  import opened Sorting

  /** A write of value `data.1` to entity `data.0`. */
  type Write = Record<(Value, Value), nat>

  /** A value of a key in a batch, with its updates. */
  datatype Candidate = Candidate(value: Value, updates: seq<(nat, int)>)

  datatype Group = Group(key: Value, candidates: seq<Candidate>)

  type Batch = seq<Group>

  //
  // Batches become a stream of writes
  //

  function Updates(key: Value, c: Candidate): seq<Write> {
    seq(|c.updates|, i requires 0 <= i < |c.updates| => Record((key, c.value), c.updates[i].0, c.updates[i].1))
  }

  function Tuples(key: Value, cs: seq<Candidate>): seq<Write> {
    if cs == [] then [] else Tuples(key, cs[..|cs| - 1]) + Updates(key, cs[|cs| - 1])
  }

  predicate Earlier(a: Write, b: Write) { a.time < b.time }

  function Emitted(batch: Batch): seq<Write> {
    if batch == [] then []
    else
      var g := batch[|batch| - 1];
      Emitted(batch[..|batch| - 1]) + Sort(Tuples(g.key, g.candidates), Earlier)
  }

  /** Walks the keys of a batch and gives their updates, sorted by time per key. */
  method EmitBatch(batch: Batch) returns (out: seq<Write>)
    ensures out == Emitted(batch) && Holds(out, batch)
  {
    EmittedHolds(batch);
    out := [];
    for i := 0 to |batch|
      invariant out == Emitted(batch[..i])
    {
      var tuples := CollectTuples(batch[i]);
      assert batch[..i + 1][..i] == batch[..i];
      out := out + Sort(tuples, Earlier);
    }
    assert batch[..|batch|] == batch;
  }

  method CollectTuples(g: Group) returns (tuples: seq<Write>)
    ensures tuples == Tuples(g.key, g.candidates)
  {
    var cs := g.candidates;
    tuples := [];
    for j := 0 to |cs|
      invariant tuples == Tuples(g.key, cs[..j])
    {
      ghost var before := tuples;
      for k := 0 to |cs[j].updates|
        invariant tuples == before + Updates(g.key, cs[j])[..k]
      {
        tuples := tuples + [Record((g.key, cs[j].value), cs[j].updates[k].0, cs[j].updates[k].1)];
      }
      assert cs[..j + 1][..j] == cs[..j];
      assert Updates(g.key, cs[j])[..|cs[j].updates|] == Updates(g.key, cs[j]);
    }
    assert cs[..|cs|] == cs;
  }

  lemma {:induction false} NetInsert(s: seq<Write>, x: Write, d: (Value, Value), t: nat)
    ensures Net(Insert(s, x, Earlier), d, t) == Net(s + [x], d, t)
  {
    if s != [] && Earlier(x, s[|s| - 1]) {
      var front, last := s[..|s| - 1], s[|s| - 1];
      NetInsert(front, x, d, t);
      NetConcat(Insert(front, x, Earlier), [last], d, t);
      assert s == front + [last];
      NetConcat(front, [last], d, t);
      NetConcat(front, [x], d, t);
      NetConcat(s, [x], d, t);
    }
  }

  lemma {:induction false} NetSort(s: seq<Write>, d: (Value, Value), t: nat)
    ensures Net(Sort(s, Earlier), d, t) == Net(s, d, t)
  {
    if s != [] {
      var front, last := s[..|s| - 1], s[|s| - 1];
      NetSort(front, d, t);
      NetInsert(Sort(front, Earlier), last, d, t);
      assert s == front + [last];
      NetConcat(front, [last], d, t);
      NetConcat(Sort(front, Earlier), [last], d, t);
    }
  }

  //
  // What a batch lists, read off the batch itself
  //

  /** The diffs listed at time `t`. */
  ghost function DiffAt(updates: seq<(nat, int)>, t: nat): int {
    if updates == [] then 0 else (if updates[0].0 == t then updates[0].1 else 0) + DiffAt(updates[1..], t)
  }

  /** The diffs listed at time `t` under value `v`. */
  ghost function ValueAt(cs: seq<Candidate>, v: Value, t: nat): int {
    if cs == [] then 0
    else ValueAt(cs[..|cs| - 1], v, t) + if cs[|cs| - 1].value == v then DiffAt(cs[|cs| - 1].updates, t) else 0
  }

  /** The diffs listed at time `t` under value `v` of key `e`. */
  ghost function ListedAt(batch: Batch, e: Value, v: Value, t: nat): int {
    if batch == [] then 0
    else
      var g := batch[|batch| - 1];
      ListedAt(batch[..|batch| - 1], e, v, t) + if g.key == e then ValueAt(g.candidates, v, t) else 0
  }

  lemma {:induction false} NetUpdates(key: Value, c: Candidate, e: Value, v: Value, t: nat)
    ensures Net(Updates(key, c), (e, v), t) == if key == e && c.value == v then DiffAt(c.updates, t) else 0
    decreases |c.updates|
  {
    if c.updates != [] {
      var rest := c.(updates := c.updates[1..]);
      assert Updates(key, c)[1..] == Updates(key, rest);
      NetUpdates(key, rest, e, v, t);
    }
  }

  lemma {:induction false} NetTuples(key: Value, cs: seq<Candidate>, e: Value, v: Value, t: nat)
    ensures Net(Tuples(key, cs), (e, v), t) == if key == e then ValueAt(cs, v, t) else 0
  {
    if cs != [] {
      var front, c := cs[..|cs| - 1], cs[|cs| - 1];
      NetTuples(key, front, e, v, t);
      NetUpdates(key, c, e, v, t);
      NetConcat(Tuples(key, front), Updates(key, c), (e, v), t);
    }
  }

  /** Every update is emitted as the batch lists it: under its key and value, at its
      own time, with its own diff. */
  lemma {:induction false} EmittedIsListed(batch: Batch, e: Value, v: Value, t: nat)
    ensures Net(Emitted(batch), (e, v), t) == ListedAt(batch, e, v, t)
  {
    if batch != [] {
      var front, g := batch[..|batch| - 1], batch[|batch| - 1];
      var tuples := Tuples(g.key, g.candidates);
      EmittedIsListed(front, e, v, t);
      NetTuples(g.key, g.candidates, e, v, t);
      NetSort(tuples, (e, v), t);
      NetConcat(Emitted(front), Sort(tuples, Earlier), (e, v), t);
    }
  }

  /** The stream holds, net, exactly what the batch lists. */
  ghost predicate Holds(stream: seq<Write>, batch: Batch) {
    forall e, v, t :: Net(stream, (e, v), t) == ListedAt(batch, e, v, t)
  }

  lemma EmittedHolds(batch: Batch)
    ensures Holds(Emitted(batch), batch)
  {
    forall e, v, t ensures Net(Emitted(batch), (e, v), t) == ListedAt(batch, e, v, t) { EmittedIsListed(batch, e, v, t); }
  }

  //
  // The stream is in time order for every entity
  //

  /** Writes to the same entity come in time order. */
  ghost predicate TimeOrdered(ws: seq<Write>) {
    forall i, j :: 0 <= i < j < |ws| && ws[i].data.0 == ws[j].data.0 ==> ws[i].time <= ws[j].time
  }

  ghost predicate Before(a: seq<Write>, b: seq<Write>) {
    forall x, y :: x in a && y in b && x.data.0 == y.data.0 ==> x.time <= y.time
  }

  lemma TimeOrderedConcat(a: seq<Write>, b: seq<Write>)
    requires TimeOrdered(a) && TimeOrdered(b) && Before(a, b)
    ensures TimeOrdered(a + b)
  {
    var ws := a + b;
    forall i, j | 0 <= i < j < |ws| && ws[i].data.0 == ws[j].data.0 ensures ws[i].time <= ws[j].time {
      if i < |a| <= j { assert a[i] in a && b[j - |a|] in b; }
    }
  }

  predicate Unconstrained(a: Write, b: Write) { true }

  lemma SortedByTime(s: seq<Write>)
    ensures TimeOrdered(Sort(s, Earlier))
    ensures forall w :: w in Sort(s, Earlier) <==> w in s
  {
    SortIsStable(s, Earlier, Unconstrained);
    SortPermutes(s, Earlier);
    var r := Sort(s, Earlier);
    forall w: Write ensures w in r <==> w in s { assert w in r <==> w in multiset(r); }
    forall i, j | 0 <= i < j < |r| ensures r[i].time <= r[j].time {
      assert Behind(Earlier, Unconstrained, r[i], r[j]);
    }
  }

  lemma {:induction false} TuplesHaveKey(key: Value, cs: seq<Candidate>)
    ensures forall w :: w in Tuples(key, cs) ==> w.data.0 == key
  {
    if cs != [] { TuplesHaveKey(key, cs[..|cs| - 1]); }
  }

  ghost predicate KeysDistinct(batch: Batch) {
    forall i, j :: 0 <= i < j < |batch| ==> batch[i].key != batch[j].key
  }

  /** Since a batch lists each key once, its stream is in time order per entity. */
  lemma {:induction false} EmittedIsOrdered(batch: Batch)
    requires KeysDistinct(batch)
    ensures TimeOrdered(Emitted(batch))
    ensures forall w :: w in Emitted(batch) ==> exists i :: 0 <= i < |batch| && batch[i].key == w.data.0
  {
    if batch != [] {
      var front, g := batch[..|batch| - 1], batch[|batch| - 1];
      EmittedIsOrdered(front);
      SortedByTime(Tuples(g.key, g.candidates));
      TuplesHaveKey(g.key, g.candidates);
      var last := Sort(Tuples(g.key, g.candidates), Earlier);
      forall x | x in Emitted(front) ensures x.data.0 != g.key {
        var i :| 0 <= i < |front| && front[i].key == x.data.0;
        assert batch[i].key != batch[|batch| - 1].key;
      }
      TimeOrderedConcat(Emitted(front), last);
      forall w | w in Emitted(batch) ensures exists i :: 0 <= i < |batch| && batch[i].key == w.data.0 {
        if w in last {
          assert batch[|batch| - 1].key == w.data.0;
        } else {
          var i :| 0 <= i < |front| && front[i].key == w.data.0;
          assert batch[i].key == w.data.0;
        }
      }
    }
  }

  //
  // The state machine
  //

  datatype Folded = Folded(states: map<Value, Value>, output: seq<Write>)

  /** One write: a new key must not be retracted; a known value is replaced, or
      retracted together with its state. */
  function Fold(f: Folded, w: Write): Outcome<Folded> {
    var (e, next) := w.data;
    if e !in f.states then
      if w.diff > 0 then Ok(Folded(f.states[e := next], f.output + [Record((e, next), w.time, 1)])) else Panic
    else if w.diff > 0 then
      Ok(Folded(f.states[e := next], f.output + [Record((e, f.states[e]), w.time, -1), Record((e, next), w.time, 1)]))
    else
      Ok(Folded(f.states - {e}, f.output + [Record((e, f.states[e]), w.time, -1)]))
  }

  function FoldAll(ws: seq<Write>): Outcome<Folded> {
    if ws == [] then Ok(Folded(map[], []))
    else
      match FoldAll(ws[..|ws| - 1])
      case Panic => Panic
      case Ok(f) => Fold(f, ws[|ws| - 1])
  }

  /** What the last write to `e` leaves: its value, or nothing if it retracts. */
  function LastWrite(ws: seq<Write>, e: Value): Option<Value> {
    if ws == [] then None
    else
      var w := ws[|ws| - 1];
      if w.data.0 != e then LastWrite(ws[..|ws| - 1], e)
      else if w.diff > 0 then Some(w.data.1) else None
  }

  /** The same, for the writes at or before time `t`. */
  function LastWriteBy(ws: seq<Write>, e: Value, t: nat): Option<Value> {
    if ws == [] then None
    else
      var w := ws[|ws| - 1];
      if w.data.0 != e || t < w.time then LastWriteBy(ws[..|ws| - 1], e, t)
      else if w.diff > 0 then Some(w.data.1) else None
  }

  /** A retraction of an entity that has no value at that point. */
  predicate RetractsAbsent(ws: seq<Write>, i: nat)
    requires i < |ws|
  {
    ws[i].diff <= 0 && LastWrite(ws[..i], ws[i].data.0).None?
  }

  lemma {:induction false} LastWriteByAll(ws: seq<Write>, e: Value, t: nat)
    requires forall w :: w in ws && w.data.0 == e ==> w.time <= t
    ensures LastWriteBy(ws, e, t) == LastWrite(ws, e)
  {
    if ws != [] {
      var front := ws[..|ws| - 1];
      assert ws[|ws| - 1] in ws;
      forall w | w in front ensures w in ws {}
      LastWriteByAll(front, e, t);
    }
  }

  function Held(f: Folded, e: Value): Option<Value> {
    if e in f.states then Some(f.states[e]) else None
  }

  function One(now: Option<Value>, v: Value): int { if now == Some(v) then 1 else 0 }

  /** The state holds the last write. */
  lemma {:induction false} StateIsLastWrite(ws: seq<Write>, e: Value)
    requires FoldAll(ws).Ok?
    ensures Held(FoldAll(ws).value, e) == LastWrite(ws, e)
  {
    if ws != [] { StateIsLastWrite(ws[..|ws| - 1], e); }
  }

  /** The machine panics exactly if some entity is retracted while absent. */
  lemma {:induction false} PanicsIffRetractsAbsent(ws: seq<Write>)
    ensures FoldAll(ws).Panic? <==> exists i :: 0 <= i < |ws| && RetractsAbsent(ws, i)
  {
    if ws != [] {
      var n := |ws| - 1;
      var front := ws[..n];
      PanicsIffRetractsAbsent(front);
      forall i | 0 <= i < n ensures RetractsAbsent(front, i) == RetractsAbsent(ws, i) { assert front[..i] == ws[..i]; }
      if FoldAll(front).Ok? {
        StateIsLastWrite(front, ws[n].data.0);
        assert FoldAll(ws).Panic? <==> RetractsAbsent(ws, n);
      } else {
        var i :| 0 <= i < n && RetractsAbsent(front, i);
        assert RetractsAbsent(ws, i);
      }
    }
  }

  lemma {:induction false} CountBeforeConcat(a: seq<Write>, b: seq<Write>, d: (Value, Value), n: nat)
    ensures CountBefore(a + b, d, n) == CountBefore(a, d, n) + CountBefore(b, d, n)
  {
    if a == [] {
      assert a + b == b;
    } else {
      assert (a + b)[1..] == a[1..] + b;
      CountBeforeConcat(a[1..], b, d, n);
    }
  }

  /** What one write adds to the output: its entity changes from one value to
      the next, at the time of the write. */
  lemma FoldReplaces(f: Folded, w: Write, e: Value, v: Value, t: nat)
    requires Fold(f, w).Ok?
    ensures var g := Fold(f, w).value;
      CountBefore(g.output, (e, v), t + 1) - CountBefore(f.output, (e, v), t + 1) ==
        if e == w.data.0 && w.time <= t then One(Held(g, e), v) - One(Held(f, e), v) else 0
  {
    var g := Fold(f, w).value;
    var added := g.output[|f.output|..];
    assert g.output == f.output + added;
    CountBeforeConcat(f.output, added, (e, v), t + 1);
    if |added| == 2 {
      assert added == [added[0]] + [added[1]];
      CountBeforeConcat([added[0]], [added[1]], (e, v), t + 1);
    }
  }

  /** The output accumulated through any time holds, for every entity, the value
      of its last write by then, once, and nothing else. */
  lemma {:induction false} OutputIsLastWrite(ws: seq<Write>, e: Value, v: Value, t: nat)
    requires TimeOrdered(ws) && FoldAll(ws).Ok?
    ensures CountBefore(FoldAll(ws).value.output, (e, v), t + 1) == One(LastWriteBy(ws, e, t), v)
  {
    if ws != [] {
      var n := |ws| - 1;
      var front, w := ws[..n], ws[n];
      OutputIsLastWrite(front, e, v, t);
      FoldReplaces(FoldAll(front).value, w, e, v, t);
      if w.data.0 == e && w.time <= t {
        StateIsLastWrite(front, e);
        StateIsLastWrite(ws, e);
        LastWriteByAll(front, e, t);
      }
    }
  }

  /** At most one value per entity, at any time. */
  lemma AtMostOneValue(ws: seq<Write>, e: Value, t: nat, v: Value, w: Value)
    requires TimeOrdered(ws) && FoldAll(ws).Ok? && v != w
    ensures var out := FoldAll(ws).value.output;
      && 0 <= CountBefore(out, (e, v), t + 1) <= 1
      && CountBefore(out, (e, v), t + 1) + CountBefore(out, (e, w), t + 1) <= 1
  {
    OutputIsLastWrite(ws, e, v, t);
    OutputIsLastWrite(ws, e, w, t);
  }

  //
  // Writes at the same time
  //

  lemma PairEmitted(e: Value, v: Value, x: int, w: Value, y: int, t: nat)
    ensures Emitted([Group(e, [Candidate(v, [(t, x)]), Candidate(w, [(t, y)])])]) == [Record((e, v), t, x), Record((e, w), t, y)]
  {
    var cs := [Candidate(v, [(t, x)]), Candidate(w, [(t, y)])];
    var first: Write, last: Write := Record((e, v), t, x), Record((e, w), t, y);
    assert Tuples(e, cs) == [first, last] by {
      assert cs[..1] == [cs[0]] && [cs[0]][..0] == [] && Tuples(e, []) == [];
      assert Tuples(e, [cs[0]]) == Tuples(e, []) + Updates(e, cs[0]);
    }
    assert Sort([first, last], Earlier) == [first, last] by {
      assert [first, last][..1] == [first] && [first][..0] == [];
      assert Sort([first], Earlier) == [first];
    }
    assert [Group(e, cs)][..0] == [];
  }

  /** The values of a key in their own order, as a batch lists them. */
  function Listed(a: Candidate, b: Candidate): seq<Candidate> {
    if Less(a.value, b.value) then [a, b] else [b, a]
  }

  /** The batch that retracts one value of an entity and adds the next. */
  function Replacement(e: Value, replaced: Value, next: Value, t: nat): Batch {
    [Group(e, Listed(Candidate(replaced, [(t, -1)]), Candidate(next, [(t, 1)])))]
  }

  /** At one time, the values of a key come in their own order. An explicit
      replacement of the current value by the next never panics, but the output
      through its time holds the next value exactly if the replaced one sorts
      first; otherwise the entity is left without a value. */
  lemma ReplacementKeptIff(before: seq<Write>, e: Value, replaced: Value, next: Value, t: nat, v: Value)
    requires TimeOrdered(before) && FoldAll(before).Ok? && LastWrite(before, e) == Some(replaced) && replaced != next
    requires forall w :: w in before && w.data.0 == e ==> w.time <= t
    ensures var all := before + Emitted(Replacement(e, replaced, next, t));
      && FoldAll(all).Ok?
      && CountBefore(FoldAll(all).value.output, (e, v), t + 1) == (if v == next && Less(replaced, next) then 1 else 0)
  {
    PairEmitted(e, replaced, -1, next, 1, t);
    PairEmitted(e, next, 1, replaced, -1, t);
    var first: Write, last: Write := Record((e, replaced), t, -1), Record((e, next), t, 1);
    if !Less(replaced, next) { first, last := last, first; }
    var all := before + Emitted(Replacement(e, replaced, next, t));
    assert all == before + [first, last] && all[..|all| - 1] == before + [first];
    assert (before + [first])[..|before|] == before;
    StateIsLastWrite(before, e);
    assert FoldAll(before + [first]) == Fold(FoldAll(before).value, first);
    assert FoldAll(all) == Fold(FoldAll(before + [first]).value, last);
    TimeOrderedConcat(before, [first, last]);
    OutputIsLastWrite(all, e, v, t);
  }

  lemma FoldOneMore(ws: seq<Write>, w: Write)
    ensures FoldAll(ws + [w]) == if FoldAll(ws).Panic? then Panic else Fold(FoldAll(ws).value, w)
  {
    assert (ws + [w])[..|ws|] == ws;
  }

  /** Feeds a stream of writes to the state machine. */
  method FoldStream(start: Folded, stream: seq<Write>, ghost before: seq<Write>) returns (f: Outcome<Folded>)
    requires FoldAll(before) == Ok(start)
    ensures f == FoldAll(before + stream)
  {
    f := Ok(start);
    assert before + stream[..0] == before;
    for i := 0 to |stream|
      invariant f == FoldAll(before + stream[..i])
    {
      FoldOneMore(before + stream[..i], stream[i]);
      assert before + stream[..i + 1] == before + stream[..i] + [stream[i]];
      f := if f.Panic? then Panic else Fold(f.value, stream[i]);
    }
    assert stream[..|stream|] == stream;
  }

  /** Through every time the output holds the last write by then of every entity,
      once, and nothing else. */
  ghost predicate HoldsLastWrites(output: seq<Write>, ws: seq<Write>) {
    forall e, v, t: nat :: CountBefore(output, (e, v), t + 1) == One(LastWriteBy(ws, e, t), v)
  }

  lemma StreamIsRight(seen: seq<Write>, stream: seq<Write>)
    requires TimeOrdered(seen) && TimeOrdered(stream) && Before(seen, stream)
    ensures TimeOrdered(seen + stream)
    ensures FoldAll(seen + stream).Panic? <==> exists i :: 0 <= i < |seen + stream| && RetractsAbsent(seen + stream, i)
    ensures FoldAll(seen + stream).Ok? ==> HoldsLastWrites(FoldAll(seen + stream).value.output, seen + stream)
  {
    var all := seen + stream;
    TimeOrderedConcat(seen, stream);
    PanicsIffRetractsAbsent(all);
    if FoldAll(all).Ok? {
      forall e, v, t: nat ensures CountBefore(FoldAll(all).value.output, (e, v), t + 1) == One(LastWriteBy(all, e, t), v) {
        OutputIsLastWrite(all, e, v, t);
      }
    }
  }

  /** The operator: values per entity, and the updates it has given so far. */
  class LastWriteWins {
    var states: map<Value, Value>
    var output: seq<Write>
    /** All writes received. */
    ghost var seen: seq<Write>

    ghost predicate Valid()
      reads this
    {
      TimeOrdered(seen) && FoldAll(seen) == Ok(Folded(states, output))
    }

    constructor ()
      ensures Valid() && seen == []
    {
      states, output, seen := map[], [], [];
    }

    /** Processes a batch, whose times are not before those of earlier batches.
        It panics exactly if an entity is retracted while it has no value;
        otherwise the output is again the last write at every time. */
    method Receive(batch: Batch) returns (panicked: bool)
      requires Valid() && KeysDistinct(batch) && Before(seen, Emitted(batch))
      modifies this
      ensures seen == old(seen) + Emitted(batch) && Holds(seen[|old(seen)|..], batch)
      ensures panicked <==> exists i :: 0 <= i < |seen| && RetractsAbsent(seen, i)
      ensures !panicked ==> Valid() && HoldsLastWrites(output, seen)
    {
      var stream := EmitBatch(batch);
      var f := FoldStream(Folded(states, output), stream, seen);
      EmittedIsOrdered(batch);
      StreamIsRight(seen, stream);
      assert (seen + stream)[|seen|..] == stream;
      seen := seen + stream;
      panicked := f.Panic?;
      if f.Ok? { states, output := f.value.states, f.value.output; }
    }
  }
}
