/** The six indices kept per attribute, and what look-ups into them answer. */
module Indices {
  import opened Values
  import opened Collections
  import opened AltNeuTime
  import opened Extenders

  type History = seq<Record<(Value, Value), nat>>

  datatype AttributeIndex = AttributeIndex(
    forwardCount: seq<Record<Value, nat>>,
    forwardPropose: History,
    forwardValidate: History,
    reverseCount: seq<Record<Value, nat>>,
    reversePropose: History,
    reverseValidate: History)

  function Firsts(raw: History): seq<Record<Value, nat>> {
    seq(|raw|, i requires 0 <= i < |raw| => Record(raw[i].data.0, raw[i].time, raw[i].diff))
  }

  function Swapped(raw: History): History {
    seq(|raw|, i requires 0 <= i < |raw| => Record((raw[i].data.1, raw[i].data.0), raw[i].time, raw[i].diff))
  }

  /** All indices of an attribute, as the domain installs them. Note that the
      reverse validation index holds the pairs unswapped. */
  function AsInstalled(raw: History): AttributeIndex {
    AttributeIndex(Firsts(raw), raw, raw, Firsts(Swapped(raw)), Swapped(raw), raw)
  }

  /** Bringing an index into the delta scope, as `neu` or as `alt`. */
  function Enter<K>(trace: seq<Record<K, nat>>, neu: bool): Stream<K> {
    seq(|trace|, i requires 0 <= i < |trace| => Record(trace[i].data, AltNeu(trace[i].time, neu), trace[i].diff))
  }

  function ForwardExtender(index: AttributeIndex, neu: bool, offset: nat): Extender {
    CollectionExtender(Enter(index.forwardCount, neu), Enter(index.forwardPropose, neu),
                       Enter(index.forwardValidate, neu), offset)
  }

  function ReverseExtender(index: AttributeIndex, neu: bool, offset: nat): Extender {
    CollectionExtender(Enter(index.reverseCount, neu), Enter(index.reversePropose, neu),
                       Enter(index.reverseValidate, neu), offset)
  }

  /** How much of an index entered as `neu` is visible at a moment. */
  function Horizon(neu: bool, at: Moment): nat {
    if neu && !at.neu then at.time else at.time + 1
  }

  lemma {:induction false} LookupSeesHorizon<K>(trace: seq<Record<K, nat>>, neu: bool, k: K, at: Moment)
    ensures Accumulated(Enter(trace, neu), k, at) == CountBefore(trace, k, Horizon(neu, at))
  {
    if trace != [] {
      assert Enter(trace, neu)[1..] == Enter(trace[1..], neu);
      LookupSeesHorizon(trace[1..], neu, k, at);
    }
  }

  lemma {:induction false} SwappedCount(raw: History, e: Value, v: Value, n: nat)
    ensures CountBefore(Swapped(raw), (v, e), n) == CountBefore(raw, (e, v), n)
  {
    if raw != [] {
      assert Swapped(raw)[1..] == Swapped(raw[1..]);
      SwappedCount(raw[1..], e, v, n);
    }
  }

  //
  // Counting
  //

  ghost function SumOver(trace: Stream<(Value, Value)>, key: Value, vs: seq<Value>, at: Moment): int {
    if vs == [] then 0 else Accumulated(trace, (key, vs[0]), at) + SumOver(trace, key, vs[1..], at)
  }

  lemma {:induction false} SumOverHead(trace: Stream<(Value, Value)>, key: Value, vs: seq<Value>, at: Moment)
    requires trace != [] && Collections.Distinct(vs)
    ensures SumOver(trace, key, vs, at) == SumOver(trace[1..], key, vs, at) +
      if trace[0].data.0 == key && trace[0].data.1 in vs && Le(trace[0].time, at) then trace[0].diff else 0
  {
    if vs != [] { SumOverHead(trace, key, vs[1..], at); }
  }

  function FirstsOf(trace: Stream<(Value, Value)>): Stream<Value> {
    seq(|trace|, i requires 0 <= i < |trace| => Record(trace[i].data.0, trace[i].time, trace[i].diff))
  }

  lemma {:induction false} CountSumsValues(trace: Stream<(Value, Value)>, key: Value, at: Moment)
    ensures Accumulated(FirstsOf(trace), key, at) == SumOver(trace, key, ValuesUnder(Visible(trace, at), key), at)
  {
    if trace != [] {
      var rest := trace[1..];
      assert FirstsOf(trace)[1..] == FirstsOf(rest);
      CountSumsValues(rest, key, at);
      var vs := ValuesUnder(Visible(trace, at), key);
      var others := ValuesUnder(Visible(rest, at), key);
      SumOverHead(trace, key, vs, at);
      if Le(trace[0].time, at) {
        assert Visible(trace, at)[1..] == Visible(rest, at);
        var (k, v) := trace[0].data;
        if k == key && v !in others {
          AbsentValueAccumulatesNothing(rest, key, v, at);
          assert vs[1..] == others;
        }
      } else {
        assert Visible(trace, at) == Visible(rest, at);
      }
    }
  }

  lemma {:induction false} SumOfPresence(trace: Stream<(Value, Value)>, key: Value, vs: seq<Value>, at: Moment)
    requires forall v :: 0 <= Accumulated(trace, (key, v), at) <= 1
    ensures SumOver(trace, key, vs, at) == |KeepPresent(trace, key, vs, at)|
  {
    if vs != [] { SumOfPresence(trace, key, vs[1..], at); }
  }

  //
  // When an index serves a relation
  //

  /** At every time every pair is in the attribute once or not at all. */
  ghost predicate SetValued(raw: History) {
    forall p: (Value, Value), n: nat :: 0 <= CountBefore(raw, p, n) <= 1
  }

  /** No key ever has 2^31 or more entries. */
  ghost predicate Bounded(raw: History) {
    forall k, n: nat :: CountBefore(Firsts(raw), k, n) < 0x8000_0000 && CountBefore(Firsts(Swapped(raw)), k, n) < 0x8000_0000
  }

  /** The pairs accepted by reverse validation are those proposed in reverse. */
  ghost predicate ValidatesReverse(index: AttributeIndex, raw: History) {
    forall e, v, n: nat :: CountBefore(index.reverseValidate, (v, e), n) > 0 <==> CountBefore(raw, (e, v), n) > 0
  }

  /** All indices but the one for reverse validation are as installed. */
  ghost predicate Indexed(index: AttributeIndex, raw: History) {
    index == AsInstalled(raw).(reverseValidate := index.reverseValidate)
  }

  ghost predicate Serves(index: AttributeIndex, raw: History) {
    Indexed(index, raw) && ValidatesReverse(index, raw)
  }

  ghost predicate Symmetric(raw: History) {
    forall e, v, n: nat :: CountBefore(raw, (e, v), n) > 0 <==> CountBefore(raw, (v, e), n) > 0
  }

  /** The contract of an extender: it accepts exactly what it would propose. */
  ghost predicate AcceptsWhatItProposes(x: Extender)
    requires Counts(x)
  {
    forall e, at :: Accepts(x, e, at) <==> e.value in Proposals(x, e.prefix, at)
  }

  lemma ProposedAreStored(pairs: History, neu: bool, key: Value, v: Value, at: Moment)
    ensures v in Proposed(Enter(pairs, neu), key, at) <==> CountBefore(pairs, (key, v), Horizon(neu, at)) > 0
  {
    ProposedIffPresent(Enter(pairs, neu), key, v, at);
    LookupSeesHorizon(pairs, neu, (key, v), at);
  }

  /** What the reverse extender proposes and accepts, in terms of its attribute:
      it proposes the entities of a value, and as installed it accepts what would
      be the values of an entity. */
  lemma InstalledReverse(raw: History, neu: bool, offset: nat, e: Extension, at: Moment)
    ensures var x := ReverseExtender(AsInstalled(raw), neu, offset);
      && (e.value in Proposals(x, e.prefix, at) <==> CountBefore(raw, (e.value, At(e.prefix, offset)), Horizon(neu, at)) > 0)
      && (Accepts(x, e, at) <==> CountBefore(raw, (At(e.prefix, offset), e.value), Horizon(neu, at)) > 0)
  {
    var key := At(e.prefix, offset);
    ProposedAreStored(Swapped(raw), neu, key, e.value, at);
    SwappedCount(raw, e.value, key, Horizon(neu, at));
    LookupSeesHorizon(raw, neu, (key, e.value), at);
  }

  /** As installed, the reverse extender of an attribute honours the contract
      exactly if the attribute is symmetric at every time. */
  lemma InstalledReverseIffSymmetric(raw: History, neu: bool, offset: nat)
    ensures AcceptsWhatItProposes(ReverseExtender(AsInstalled(raw), neu, offset)) <==> Symmetric(raw)
  {
    var x := ReverseExtender(AsInstalled(raw), neu, offset);
    if AcceptsWhatItProposes(x) {
      forall e, v, n: nat ensures CountBefore(raw, (e, v), n) > 0 <==> CountBefore(raw, (v, e), n) > 0 {
        if n == 0 {
          CountBeforeZero(raw, (e, v));
          CountBeforeZero(raw, (v, e));
        } else {
          var extension, at := Extension(seq(offset + 1, _ => v), e), AltNeu(n - 1, neu);
          assert Accepts(x, extension, at) <==> extension.value in Proposals(x, extension.prefix, at);
          InstalledReverse(raw, neu, offset, extension, at);
        }
      }
    }
    if Symmetric(raw) {
      forall e, at ensures Accepts(x, e, at) <==> e.value in Proposals(x, e.prefix, at) {
        InstalledReverse(raw, neu, offset, e, at);
      }
    }
  }

  /** Reverse validation as installed looks for the mirrored pair: the single
      pair (1, 2) is proposed in reverse but not accepted. */
  lemma InstalledReverseRejects()
    ensures var raw := [Record((Eid(1), Eid(2)), 0, 1)];
      var x := ReverseExtender(AsInstalled(raw), false, 0);
      Proposals(x, [Eid(2)], ToInner(0)) == [Eid(1)] && !Accepts(x, Extension([Eid(2)], Eid(1)), ToInner(0))
  {
    var raw := [Record((Eid(1), Eid(2)), 0, 1)];
    var x := ReverseExtender(AsInstalled(raw), false, 0);
    assert x.validate == [Record((Eid(1), Eid(2)), AltNeu(0, false), 1)] && x.validate[1..] == [];
    var propose := x.propose;
    assert propose == [Record((Eid(2), Eid(1)), AltNeu(0, false), 1)] && propose[1..] == [];
    var entries := Visible(propose, ToInner(0));
    assert entries == [((Eid(2), Eid(1)), 1)] && entries[1..] == [];
    var vs := ValuesUnder(entries, Eid(2));
    assert ValuesUnder(entries[1..], Eid(2)) == [];
    assert vs == [Eid(1)] && vs[1..] == [];
    assert Accumulated(propose[1..], (Eid(2), Eid(1)), ToInner(0)) == 0;
    assert Accumulated(propose, (Eid(2), Eid(1)), ToInner(0)) == 1;
  }

  /** Indexing the swapped pairs would honour it for every attribute. */
  lemma SwappedIndexServes(raw: History)
    ensures Serves(AsInstalled(raw).(reverseValidate := Swapped(raw)), raw)
  {
    forall e, v, n: nat ensures CountBefore(Swapped(raw), (v, e), n) == CountBefore(raw, (e, v), n) {
      SwappedCount(raw, e, v, n);
    }
  }

  lemma ExtenderIsConsistent(pairs: History, validate: History, neu: bool, offset: nat)
    requires SetValued(pairs)
    requires forall k, n: nat :: CountBefore(Firsts(pairs), k, n) < MAX_COUNT
    requires forall p, n: nat :: CountBefore(validate, p, n) > 0 <==> CountBefore(pairs, p, n) > 0
    ensures Consistent(CollectionExtender(Enter(Firsts(pairs), neu), Enter(pairs, neu), Enter(validate, neu), offset))
  {
    forall k, v, at
      ensures Accumulated(Enter(validate, neu), (k, v), at) > 0 <==> Accumulated(Enter(pairs, neu), (k, v), at) > 0
    {
      LookupSeesHorizon(validate, neu, (k, v), at);
      LookupSeesHorizon(pairs, neu, (k, v), at);
    }
    forall k, at
      ensures Accumulated(Enter(Firsts(pairs), neu), k, at) == |Proposed(Enter(pairs, neu), k, at)| < MAX_COUNT
    {
      var trace := Enter(pairs, neu);
      LookupSeesHorizon(Firsts(pairs), neu, k, at);
      assert Enter(Firsts(pairs), neu) == FirstsOf(trace);
      CountSumsValues(trace, k, at);
      forall v ensures 0 <= Accumulated(trace, (k, v), at) <= 1 { LookupSeesHorizon(pairs, neu, (k, v), at); }
      SumOfPresence(trace, k, ValuesUnder(Visible(trace, at), k), at);
    }
  }

  lemma SwappedSetValued(raw: History)
    requires SetValued(raw)
    ensures SetValued(Swapped(raw))
  {
    forall p: (Value, Value), n: nat ensures 0 <= CountBefore(Swapped(raw), p, n) <= 1 {
      SwappedCount(raw, p.1, p.0, n);
    }
  }

  /** The forward extender of a set-valued attribute obeys the extender contract;
      the reverse one does if its validation index serves. */
  lemma ServedExtendersAreConsistent(index: AttributeIndex, raw: History, neu: bool, offset: nat)
    requires Indexed(index, raw) && SetValued(raw) && Bounded(raw)
    ensures Consistent(ForwardExtender(index, neu, offset))
    ensures ValidatesReverse(index, raw) ==> Consistent(ReverseExtender(index, neu, offset))
  {
    ExtenderIsConsistent(raw, raw, neu, offset);
    SwappedSetValued(raw);
    if ValidatesReverse(index, raw) {
      forall p, n: nat ensures CountBefore(index.reverseValidate, p, n) > 0 <==> CountBefore(Swapped(raw), p, n) > 0 {
        SwappedCount(raw, p.1, p.0, n);
        assert p == (p.0, p.1);
      }
      ExtenderIsConsistent(Swapped(raw), index.reverseValidate, neu, offset);
    }
  }

  /** An extender counts as many values as it proposes, whether or not its
      validation index serves. */
  lemma CountIsNumberOfProposals(index: AttributeIndex, raw: History, neu: bool, offset: nat, p: Tuple, at: Moment)
    requires Indexed(index, raw) && SetValued(raw) && Bounded(raw)
    ensures |Proposals(ForwardExtender(index, neu, offset), p, at)| == CountOf(ForwardExtender(index, neu, offset), p, at)
    ensures |Proposals(ReverseExtender(index, neu, offset), p, at)| == CountOf(ReverseExtender(index, neu, offset), p, at)
  {
    ExtenderIsConsistent(raw, raw, neu, offset);
    SwappedSetValued(raw);
    ExtenderIsConsistent(Swapped(raw), Swapped(raw), neu, offset);
    var forward, reverse := ForwardExtender(index, neu, offset), ReverseExtender(index, neu, offset);
    ConsistentCounts(forward, p, at);
    ConsistentCounts(reverse.(validate := reverse.propose), p, at);
  }

  lemma CountsAreBounded(index: AttributeIndex, raw: History, neu: bool, offset: nat, p: Tuple, at: Moment)
    requires Indexed(index, raw) && SetValued(raw) && Bounded(raw)
    ensures CountOf(ForwardExtender(index, neu, offset), p, at) < MAX_COUNT
    ensures CountOf(ReverseExtender(index, neu, offset), p, at) < MAX_COUNT
  {
    CountIsNumberOfProposals(index, raw, neu, offset, p, at);
    ExtenderIsConsistent(raw, raw, neu, offset);
    SwappedSetValued(raw);
    ExtenderIsConsistent(Swapped(raw), Swapped(raw), neu, offset);
    var forward, reverse := ForwardExtender(index, neu, offset), ReverseExtender(index, neu, offset);
    assert Consistent(forward) && Consistent(reverse.(validate := reverse.propose));
  }

  /** What the two extenders allow at `(t, alt)`: pairs present through `t` if
      entered as alt, strictly before `t` if entered as neu. */
  lemma ExtendersSeePresence(index: AttributeIndex, raw: History, neu: bool, offset: nat, e: Extension, t: nat)
    requires Indexed(index, raw)
    ensures Allows(ForwardExtender(index, neu, offset), e, ToInner(t)) <==>
      CountBefore(raw, (At(e.prefix, offset), e.value), if neu then t else t + 1) > 0
    ensures Allows(ReverseExtender(index, neu, offset), e, ToInner(t)) <==>
      CountBefore(raw, (e.value, At(e.prefix, offset)), if neu then t else t + 1) > 0
  {
    ProposedAreStored(raw, neu, At(e.prefix, offset), e.value, ToInner(t));
    ProposedAreStored(Swapped(raw), neu, At(e.prefix, offset), e.value, ToInner(t));
    SwappedCount(raw, e.value, At(e.prefix, offset), if neu then t else t + 1);
  }
}
