/** A query on which the indices as installed lose an answer. */
module Triangles {
  import opened Values
  import opened Bindings
  import opened Collections
  import opened AltNeuTime
  import opened Extenders
  import opened Indices
  import opened PlanOrders
  import opened Semantics
  import opened Pipelines
  import opened Hector

  /** One pair, added at time 0. */
  function Single(x: nat, y: nat): History { [Record((Eid(x), Eid(y)), 0, 1)] }

  lemma OneRecord<D>(d: D, q: D, n: nat)
    ensures CountBefore([Record(d, 0, 1)], q, n) == if q == d && n > 0 then 1 else 0
    ensures Net([Record(d, 0, 1)], q, n) == if q == d && n == 0 then 1 else 0
  {
    var s: seq<Record<D, nat>> := [Record(d, 0, 1)];
    assert s[1..] == [];
    assert CountBefore(s[1..], q, n) == 0 && Net(s[1..], q, n) == 0;
  }

  lemma SingleIsPlain(x: nat, y: nat)
    ensures SetValued(Single(x, y)) && Bounded(Single(x, y))
  {
    var raw := Single(x, y);
    assert Firsts(raw) == [Record(Eid(x), 0, 1)] && Firsts(Swapped(raw)) == [Record(Eid(y), 0, 1)];
    forall p: (Value, Value), n: nat ensures 0 <= CountBefore(raw, p, n) <= 1 { OneRecord((Eid(x), Eid(y)), p, n); }
    forall k, n: nat ensures CountBefore(Firsts(raw), k, n) < MAX_COUNT && CountBefore(Firsts(Swapped(raw)), k, n) < MAX_COUNT {
      OneRecord(Eid(x), k, n);
      OneRecord(Eid(y), k, n);
    }
  }

  /** Every two of three variables are related by an attribute. */
  function Triangle(): seq<Binding> { [Attribute(0, "a", 1), Attribute(1, "b", 2), Attribute(0, "c", 2)] }

  function HistoryAt(j: nat): History { if j == 0 then Single(1, 2) else if j == 1 then Single(2, 3) else Single(1, 3) }

  function Pairs(): Histories { map["a" := HistoryAt(0), "b" := HistoryAt(1), "c" := HistoryAt(2)] }

  function Installed(): Store { map["a" := AsInstalled(HistoryAt(0)), "b" := AsInstalled(HistoryAt(1)), "c" := AsInstalled(HistoryAt(2))] }

  function Answer(): Assignment { map[0 := Eid(1), 1 := Eid(2), 2 := Eid(3)] }

  /** The variables a pipeline starts with, and the one it is left to bind. */
  function Prefix(source: nat): seq<Var> { if source == 0 then [0, 1] else if source == 1 then [1, 2] else [0, 2] }

  function Target(source: nat): Var { if source == 0 then 2 else if source == 1 then 0 else 1 }

  /** The extension that completes the answer in the pipeline of `source`. */
  function Missing(source: nat): Extension { Extension(Projected(Answer(), Prefix(source)), Lookup(Answer(), Target(source))) }

  lemma Names()
    ensures "a" != "b" && "b" != "c" && "a" != "c"
  {
    assert "a"[0] != "b"[0] && "b"[0] != "c"[0] && "a"[0] != "c"[0];
  }

  lemma AnswerSatisfies(n: nat)
    requires n > 0
    ensures Satisfies(Answer(), Triangle(), Pairs(), n)
  {
    Names();
    OneRecord((Eid(1), Eid(2)), (Eid(1), Eid(2)), n);
    OneRecord((Eid(2), Eid(3)), (Eid(2), Eid(3)), n);
    OneRecord((Eid(1), Eid(3)), (Eid(1), Eid(3)), n);
  }

  lemma TriangleIsSimple()
    ensures AllSimple(Triangle(), Installed())
  {
  }

  /** The two extenders of the only step of a pipeline. */
  function Both(source: nat): seq<Extender> {
    if source == 0 then [ForwardExtender(AsInstalled(HistoryAt(1)), true, 1), ForwardExtender(AsInstalled(HistoryAt(2)), true, 0)]
    else if source == 1 then [ReverseExtender(AsInstalled(HistoryAt(0)), false, 0), ReverseExtender(AsInstalled(HistoryAt(2)), true, 1)]
    else [ForwardExtender(AsInstalled(HistoryAt(0)), false, 0), ReverseExtender(AsInstalled(HistoryAt(1)), false, 1)]
  }

  lemma StepHasBoth(source: nat)
    requires source < 3
    ensures AllSimple(Triangle(), Installed())
    ensures ExtendersFor(source, Triangle(), Prefix(source), Target(source), Installed(), 3) == Both(source)
  {
    Names();
    TriangleIsSimple();
    var bs, p, t, store := Triangle(), Prefix(source), Target(source), Installed();
    assert ExtendersFor(source, bs, p, t, store, 0) == [];
    assert ExtendersFor(source, bs, p, t, store, 1) == if source == 0 then [] else [Both(source)[0]];
    assert ExtendersFor(source, bs, p, t, store, 2) == if source == 2 then [Both(source)[0], Both(source)[1]] else [Both(source)[0]];
  }

  lemma BothAreBounded(source: nat)
    requires source < 3
    ensures BoundedCounts(Both(source)) && SomeCounts(Both(source))
  {
    var xs := Both(source);
    SingleIsPlain(1, 2);
    SingleIsPlain(2, 3);
    SingleIsPlain(1, 3);
    forall j, p, at | 0 <= j < |xs| && Counts(xs[j]) ensures CountOf(xs[j], p, at) < MAX_COUNT {
      forall k, neu, offset: nat | 0 <= k < 3
        ensures CountOf(ForwardExtender(AsInstalled(HistoryAt(k)), neu, offset), p, at) < MAX_COUNT
        ensures CountOf(ReverseExtender(AsInstalled(HistoryAt(k)), neu, offset), p, at) < MAX_COUNT
      {
        CountsAreBounded(AsInstalled(HistoryAt(k)), HistoryAt(k), neu, offset, p, at);
      }
    }
    assert Counts(xs[0]);
  }

  /** The later attributes are entered as neu, so at time 0 the second extender of
      the first two pipelines sees nothing. */
  lemma LaterIsUnseen(source: nat)
    requires source < 2
    ensures var x := Both(source)[1]; !Allows(x, Missing(source), ToInner(0)) && !Accepts(x, Missing(source), ToInner(0))
  {
    var raw, offset, e := HistoryAt(2), if source == 0 then 0 else 1, Missing(source);
    ExtendersSeePresence(AsInstalled(raw), raw, true, offset, e, 0);
    LookupSeesHorizon(raw, true, (At(e.prefix, offset), e.value), ToInner(0));
    CountBeforeZero(raw, (At(e.prefix, offset), e.value));
    CountBeforeZero(raw, (e.value, At(e.prefix, offset)));
  }

  lemma CountsOne(raw: History, x: nat, y: nat, neu: bool, offset: nat, p: Tuple)
    requires raw == Single(x, y) && !neu
    ensures At(p, offset) == Eid(x) ==> CountOf(ForwardExtender(AsInstalled(raw), neu, offset), p, ToInner(0)) == 1
    ensures At(p, offset) == Eid(y) ==> CountOf(ReverseExtender(AsInstalled(raw), neu, offset), p, ToInner(0)) == 1
  {
    assert Firsts(raw) == [Record(Eid(x), 0, 1)] && Firsts(Swapped(raw)) == [Record(Eid(y), 0, 1)];
    LookupSeesHorizon(Firsts(raw), neu, At(p, offset), ToInner(0));
    LookupSeesHorizon(Firsts(Swapped(raw)), neu, At(p, offset), ToInner(0));
    OneRecord(Eid(x), At(p, offset), 1);
    OneRecord(Eid(y), At(p, offset), 1);
  }

  /** In the third pipeline both extenders have one value to propose, so the first
      is nominated. */
  lemma FirstIsNominated()
    ensures Nominated(Both(2), 2, Missing(2).prefix, ToInner(0)) == [Nomination(Missing(2).prefix, 1, 0)]
  {
    var xs, p, at := Both(2), Missing(2).prefix, ToInner(0);
    assert p == [Eid(1), Eid(3)];
    CountsOne(HistoryAt(0), 1, 2, false, 0, p);
    CountsOne(HistoryAt(1), 2, 3, false, 1, p);
    assert Nominated(xs, 0, p, at) == [Nomination(p, MAX_COUNT, 0)];
    assert Nominated(xs, 1, p, at) == [Nomination(p, 1, 0)];
  }

  /** The second one is left to validate, in reverse, against unswapped pairs. */
  lemma SecondRejects()
    ensures !Accepts(Both(2)[1], Missing(2), ToInner(0))
  {
    var e := Missing(2);
    assert e.prefix == [Eid(1), Eid(3)] && e.value == Eid(2);
    InstalledReverse(HistoryAt(1), false, 1, e, ToInner(0));
    OneRecord((Eid(2), Eid(3)), (Eid(3), Eid(2)), 1);
  }

  lemma NotElected(source: nat)
    requires source < 3
    ensures !Elected(Both(source), Missing(source), ToInner(0))
  {
    if source < 2 {
      LaterIsUnseen(source);
    } else {
      FirstIsNominated();
      SecondRejects();
    }
  }

  /** The prefixes the pipeline of `source` starts from. */
  function Changes(source: nat): Stream<Tuple> {
    SourceTuples(AsInstalled(HistoryAt(source)).forwardPropose, (p: (Value, Value)) => true, false)
  }

  lemma ChangesAtZero(source: nat, t: nat)
    requires source < 3
    ensures Net(Changes(source), Missing(source).prefix, ToInner(t)) == if t == 0 then 1 else 0
  {
    var x, y := if source == 1 then 2 else 1, if source == 0 then 2 else 3;
    NetSourceTuples(HistoryAt(source), (p: (Value, Value)) => true, false, Eid(x), Eid(y), t);
    assert Missing(source).prefix == [Eid(x), Eid(y)];
    OneRecord((Eid(x), Eid(y)), (Eid(x), Eid(y)), t);
  }

  lemma Unelected(s: Stream<Tuple>, xs: seq<Extender>, e: Extension, at: Moment)
    requires |xs| > 1 && BoundedCounts(xs) && SomeCounts(xs)
    requires Net(s, e.prefix, at) == 0 || !Elected(xs, e, at)
    ensures Extend(s, xs).Ok? && Net(Extend(s, xs).value, e, at) == 0
  {
    ExtendElects(s, xs, e, at);
  }

  lemma StepLosesAnswer(source: nat, t: nat)
    requires source < 3
    ensures Extend(Changes(source), Both(source)).Ok?
    ensures Net(Extend(Changes(source), Both(source)).value, Missing(source), ToInner(t)) == 0
  {
    BothAreBounded(source);
    ChangesAtZero(source, t);
    if t == 0 { NotElected(source); }
    Unelected(Changes(source), Both(source), Missing(source), ToInner(t));
  }

  /** What the only step of the pipeline of `source` delivers. */
  function Delivered(source: nat): Outcome<Stream<Extension>>
    requires source < 3
  {
    TriangleIsSimple();
    Extend(Changes(source), ExtendersFor(source, Triangle(), Prefix(source), Target(source), Installed(), 3))
  }

  /** From time 0 on the three pairs make one answer, but with the indices as
      installed no pipeline ever delivers it. */
  lemma InstalledTriangleLosesAnswer(source: nat, t: nat)
    requires source < 3
    ensures Satisfies(Answer(), Triangle(), Pairs(), t + 1)
    ensures Delivered(source).Ok? && Net(Delivered(source).value, Missing(source), ToInner(t)) == 0
  {
    AnswerSatisfies(t + 1);
    StepHasBoth(source);
    StepLosesAnswer(source, t);
  }
}
