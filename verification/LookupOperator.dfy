/** The operator behind count, propose and validate: requests wait in a stash
    until the index is complete for their time, then are looked up and answered. */
module LookupOperators {
  import opened Values
  import opened Bindings
  import opened Collections
  import opened AltNeuTime
  import opened Extenders

  /** A frontier of totally ordered times: the least time still possible, or none. */
  type Frontier = Option<Moment>

  predicate Beyond(frontier: Frontier, at: Moment) {
    frontier.None? || !Le(frontier.value, at)
  }

  predicate Precedes(a: Frontier, b: Frontier) {
    b.None? || (a.Some? && Le(a.value, b.value))
  }

  /** A frontier precedes another exactly if all that lies beyond it lies beyond
      the other, too. */
  lemma PrecedesIff(a: Frontier, b: Frontier)
    ensures Precedes(a, b) <==> forall at :: Beyond(a, at) ==> Beyond(b, at)
  {
    if !Precedes(a, b) {
      if a.None? { assert Beyond(a, b.value) && !Beyond(b, b.value); } else { assert Beyond(a, b.value) && !Beyond(b, b.value); }
    }
  }

  /** Compaction up to `since` forgets how earlier times differ. */
  function Compacted<K>(trace: Stream<K>, since: Moment): Stream<K> {
    seq(|trace|, i requires 0 <= i < |trace| =>
      Record(trace[i].data, if Le(trace[i].time, since) then since else trace[i].time, trace[i].diff))
  }

  lemma {:induction false} VisibleConcat<K>(a: Stream<K>, b: Stream<K>, at: Moment)
    ensures Visible(a + b, at) == Visible(a, at) + Visible(b, at)
  {
    if a == [] {
      assert a + b == b;
    } else {
      assert (a + b)[1..] == a[1..] + b;
      VisibleConcat(a[1..], b, at);
    }
  }

  lemma {:induction false} NothingVisible<K>(trace: Stream<K>, at: Moment)
    requires forall r :: r in trace ==> !Le(r.time, at)
    ensures Visible(trace, at) == []
  {
    if trace != [] {
      assert trace[0] in trace;
      forall r | r in trace[1..] ensures r in trace {}
      NothingVisible(trace[1..], at);
    }
  }

  lemma {:induction false} CompactionIsInvisible<K>(trace: Stream<K>, since: Moment, at: Moment)
    requires Le(since, at)
    ensures Visible(Compacted(trace, since), at) == Visible(trace, at)
  {
    if trace != [] {
      assert Compacted(trace, since)[1..] == Compacted(trace[1..], since);
      CompactionIsInvisible(trace[1..], since, at);
    }
  }

  /** Look-ups at `at` survive compaction of every index up to `since` exactly
      when `since` has not passed `at`. */
  lemma CompactionSafeIff(since: Moment, at: Moment, k: Value)
    ensures (forall trace: Stream<Value> :: Visible(Compacted(trace, since), at) == Visible(trace, at)) <==> Le(since, at)
  {
    if Le(since, at) {
      forall trace: Stream<Value> ensures Visible(Compacted(trace, since), at) == Visible(trace, at) {
        CompactionIsInvisible(trace, since, at);
      }
    } else {
      var trace := [Record(k, at, 1)];
      assert Compacted(trace, since) == [Record(k, since, 1)];
      assert trace[1..] == [];
      assert Visible(trace, at) == [(k, 1)];
      assert Visible(Compacted(trace, since), at) == [];
    }
  }

  //
  // Parts of the operator's invariant
  //

  /** From `since` on, look-ups do not tell the trace from the original updates. */
  ghost predicate Faithful<K>(trace: Stream<K>, original: Stream<K>, since: Moment) {
    forall at :: Le(since, at) ==> Visible(trace, at) == Visible(original, at)
  }

  ghost predicate NotBefore<K>(s: Stream<K>, frontier: Frontier) {
    forall r :: r in s ==> !Beyond(frontier, r.time)
  }

  ghost predicate AllBeyond<D>(s: Stream<D>, frontier: Frontier) {
    forall r :: r in s ==> Beyond(frontier, r.time)
  }

  ghost predicate AllSince<D>(s: Stream<D>, since: Moment) {
    forall r :: r in s ==> Le(since, r.time)
  }

  lemma FaithfulExtends<K>(trace: Stream<K>, full: Stream<K>, arrived: nat, batch: Stream<K>, since: Moment)
    requires arrived + |batch| <= |full| && full[arrived..arrived + |batch|] == batch
    requires Faithful(trace, full[..arrived], since)
    ensures Faithful(trace + batch, full[..arrived + |batch|], since)
  {
    assert full[..arrived + |batch|] == full[..arrived] + batch;
    forall at | Le(since, at) ensures Visible(trace + batch, at) == Visible(full[..arrived] + batch, at) {
      VisibleConcat(trace, batch, at);
      VisibleConcat(full[..arrived], batch, at);
    }
  }

  /** What the operator knows of its index: the first `arrived` of its updates, and
      that all others lie beyond the frontier. */
  ghost predicate IndexHolds<K>(trace: Stream<K>, full: Stream<K>, arrived: nat, frontier: Frontier, since: Moment) {
    arrived <= |full| && NotBefore(full[arrived..], frontier) && Faithful(trace, full[..arrived], since)
  }

  lemma IndexExtends<K>(trace: Stream<K>, full: Stream<K>, arrived: nat, batch: Stream<K>, frontier: Frontier, upper: Frontier, since: Moment)
    requires IndexHolds(trace, full, arrived, frontier, since)
    requires arrived + |batch| <= |full| && full[arrived..arrived + |batch|] == batch
    requires NotBefore(full[arrived + |batch|..], upper)
    ensures IndexHolds(trace + batch, full, arrived + |batch|, upper, since)
  {
    FaithfulExtends(trace, full, arrived, batch, since);
  }

  lemma FaithfulCompacts<K>(trace: Stream<K>, original: Stream<K>, since: Moment, to: Moment)
    requires Faithful(trace, original, since) && Le(since, to)
    ensures Faithful(Compacted(trace, to), original, to)
  {
    forall at | Le(to, at) ensures Visible(Compacted(trace, to), at) == Visible(original, at) {
      CompactionIsInvisible(trace, to, at);
    }
  }

  /** Beyond the frontier the index already holds all it ever will. */
  lemma BeyondFrontierIsComplete<K>(trace: Stream<K>, full: Stream<K>, arrived: nat, frontier: Frontier, since: Moment, at: Moment)
    requires arrived <= |full| && Faithful(trace, full[..arrived], since) && NotBefore(full[arrived..], frontier)
    requires Beyond(frontier, at) && Le(since, at)
    ensures Visible(trace, at) == Visible(full, at)
  {
    VisibleConcat(full[..arrived], full[arrived..], at);
    NothingVisible(full[arrived..], at);
    assert full == full[..arrived] + full[arrived..];
  }

  lemma BeyondMonotone<D>(s: Stream<D>, frontier: Frontier, upper: Frontier)
    requires AllBeyond(s, frontier) && Precedes(frontier, upper)
    ensures AllBeyond(s, upper)
  {
  }

  function NonZero<D>(s: Stream<D>): Stream<D> {
    if s == [] then [] else (if s[0].diff != 0 then [s[0]] else []) + NonZero(s[1..])
  }

  /** How often a request that carries a change occurs. */
  ghost function Times<D>(s: Stream<D>, q: Record<D, Moment>): nat {
    if s == [] then 0 else (if s[0] == q && q.diff != 0 then 1 else 0) + Times(s[1..], q)
  }

  /** Every request of `all` is exactly once in `a` or in `b`. */
  ghost predicate Splits<D(!new)>(all: Stream<D>, a: Stream<D>, b: Stream<D>) {
    forall q :: Times(all, q) == Times(a, q) + Times(b, q)
  }

  lemma {:induction false} TimesConcat<D>(a: Stream<D>, b: Stream<D>, q: Record<D, Moment>)
    ensures Times(a + b, q) == Times(a, q) + Times(b, q)
  {
    if a == [] {
      assert a + b == b;
    } else {
      assert (a + b)[1..] == a[1..] + b;
      TimesConcat(a[1..], b, q);
    }
  }

  lemma {:induction false} TimesNonZero<D>(s: Stream<D>, q: Record<D, Moment>)
    ensures Times(NonZero(s), q) == Times(s, q)
  {
    if s != [] {
      TimesNonZero(s[1..], q);
      if s[0].diff != 0 {
        assert NonZero(s)[1..] == NonZero(s[1..]);
      } else {
        assert NonZero(s) == NonZero(s[1..]);
      }
    }
  }

  /** Requests grouped by the capability they arrived under. */
  datatype Pending<D> = Pending(capability: Moment, requests: Stream<D>)

  ghost function Stashed<D>(stash: seq<Pending<D>>): Stream<D> {
    if stash == [] then [] else stash[0].requests + Stashed(stash[1..])
  }

  lemma {:induction false} StashedConcat<D>(a: seq<Pending<D>>, b: seq<Pending<D>>)
    ensures Stashed(a + b) == Stashed(a) + Stashed(b)
  {
    if a == [] {
      assert a + b == b;
    } else {
      assert (a + b)[1..] == a[1..] + b;
      StashedConcat(a[1..], b);
    }
  }

  function Insert<D>(stash: seq<Pending<D>>, capability: Moment, data: Stream<D>): seq<Pending<D>> {
    if stash == [] then [Pending(capability, data)]
    else if stash[0].capability == capability then [Pending(capability, stash[0].requests + data)] + stash[1..]
    else [stash[0]] + Insert(stash[1..], capability, data)
  }

  lemma {:induction false} InsertTimes<D>(stash: seq<Pending<D>>, capability: Moment, data: Stream<D>, q: Record<D, Moment>)
    ensures Times(Stashed(Insert(stash, capability, data)), q) == Times(Stashed(stash), q) + Times(data, q)
  {
    var inserted := Insert(stash, capability, data);
    if stash == [] {
      assert inserted[1..] == [];
      assert Stashed(inserted) == data;
    } else {
      var head, rest := stash[0].requests, Stashed(stash[1..]);
      TimesConcat(head, rest, q);
      if stash[0].capability == capability {
        assert inserted[1..] == stash[1..];
        TimesConcat(head + data, rest, q);
        TimesConcat(head, data, q);
      } else {
        InsertTimes(stash[1..], capability, data, q);
        assert inserted[1..] == Insert(stash[1..], capability, data);
        TimesConcat(head, Stashed(inserted[1..]), q);
      }
    }
  }

  lemma {:induction false} InsertSince<D>(stash: seq<Pending<D>>, capability: Moment, data: Stream<D>, since: Moment)
    requires AllSince(Stashed(stash), since) && AllSince(data, since)
    ensures AllSince(Stashed(Insert(stash, capability, data)), since)
  {
    var inserted := Insert(stash, capability, data);
    if stash == [] {
      assert inserted[1..] == [];
    } else {
      assert AllSince(stash[0].requests, since) && AllSince(Stashed(stash[1..]), since);
      if stash[0].capability == capability {
        assert inserted[1..] == stash[1..];
      } else {
        InsertSince(stash[1..], capability, data, since);
        assert inserted[1..] == Insert(stash[1..], capability, data);
      }
    }
  }

  /** Fully processed capabilities are dropped. */
  function DropEmpty<D>(stash: seq<Pending<D>>): seq<Pending<D>> {
    if stash == [] then []
    else (if stash[0].requests == [] then [] else [stash[0]]) + DropEmpty(stash[1..])
  }

  lemma {:induction false} DropEmptyKeepsRequests<D>(stash: seq<Pending<D>>)
    ensures Stashed(DropEmpty(stash)) == Stashed(stash)
  {
    if stash != [] {
      DropEmptyKeepsRequests(stash[1..]);
      if stash[0].requests == [] {
        assert DropEmpty(stash) == DropEmpty(stash[1..]);
      } else {
        assert DropEmpty(stash)[1..] == DropEmpty(stash[1..]);
      }
    }
  }

  /** Requests that arrive under one capability wait together. */
  ghost predicate Grouped<D>(stash: seq<Pending<D>>) {
    forall i, j :: 0 <= i < j < |stash| ==> stash[i].capability != stash[j].capability
  }

  lemma {:induction false} InsertGroups<D>(stash: seq<Pending<D>>, capability: Moment, data: Stream<D>)
    requires Grouped(stash)
    ensures Grouped(Insert(stash, capability, data))
    ensures forall p :: p in Insert(stash, capability, data) ==> p.capability == capability || exists q :: q in stash && q.capability == p.capability
  {
    if stash != [] && stash[0].capability != capability {
      InsertGroups(stash[1..], capability, data);
      var rest := Insert(stash[1..], capability, data);
      forall i | 0 <= i < |rest| ensures rest[i].capability != stash[0].capability && exists q :: q in stash + [Pending(capability, data)] && q.capability == rest[i].capability {
        assert rest[i] in rest;
        if rest[i].capability != capability {
          var q :| q in stash[1..] && q.capability == rest[i].capability;
          var k :| 0 <= k < |stash[1..]| && stash[1..][k] == q;
          assert stash[k + 1].capability != stash[0].capability;
          assert q in stash;
        } else {
          assert Pending(capability, data) in stash + [Pending(capability, data)];
        }
      }
      forall p | p in Insert(stash, capability, data) ensures p.capability == capability || exists q :: q in stash && q.capability == p.capability {
        if p == stash[0] { assert stash[0] in stash; } else {
          if p.capability != capability {
            var q :| q in stash[1..] && q.capability == p.capability;
            assert q in stash;
          }
        }
      }
    } else if stash != [] {
      assert stash[0] in stash;
    }
  }

  lemma {:induction false} DropEmptyGroups<D>(stash: seq<Pending<D>>)
    requires Grouped(stash)
    ensures Grouped(DropEmpty(stash)) && forall p :: p in DropEmpty(stash) ==> p in stash
  {
    if stash != [] {
      DropEmptyGroups(stash[1..]);
      var rest := DropEmpty(stash[1..]);
      forall i | 0 <= i < |rest| ensures rest[i].capability != stash[0].capability {
        assert rest[i] in rest;
        var k :| 0 <= k < |stash[1..]| && stash[1..][k] == rest[i];
        assert stash[k + 1].capability != stash[0].capability;
      }
    }
  }

  lemma {:induction false} NoneIsEmpty<D>(stash: seq<Pending<D>>)
    ensures forall p :: p in DropEmpty(stash) ==> p.requests != []
  {
    if stash != [] { NoneIsEmpty(stash[1..]); }
  }

  lemma {:induction false} TimesOfAbsent<D>(s: Stream<D>, q: Record<D, Moment>)
    requires q !in s
    ensures Times(s, q) == 0
  {
    if s != [] {
      assert s[0] in s;
      TimesOfAbsent(s[1..], q);
    }
  }

  /** If only requests at or after the frontier wait, all others are answered. */
  lemma AnsweredBehind<D(!new)>(requested: Stream<D>, answered: Stream<D>, waiting: Stream<D>, frontier: Frontier)
    requires Splits(requested, answered, waiting) && NotBefore(waiting, frontier)
    ensures forall q: Record<D, Moment> :: frontier.None? || !Le(frontier.value, q.time) ==> Times(answered, q) == Times(requested, q)
  {
    forall q: Record<D, Moment> | frontier.None? || !Le(frontier.value, q.time) ensures Times(answered, q) == Times(requested, q) {
      TimesOfAbsent(waiting, q);
    }
  }

  /** Capabilities never exceed the times of the requests they carry. */
  ghost predicate Covered<D>(stash: seq<Pending<D>>) {
    forall p, r :: p in stash && r in p.requests ==> Le(p.capability, r.time)
  }

  lemma {:induction false} InsertCovers<D>(stash: seq<Pending<D>>, capability: Moment, data: Stream<D>)
    requires AllSince(data, capability) && Covered(stash)
    ensures Covered(Insert(stash, capability, data))
  {
    if stash != [] {
      assert stash[0] in stash;
      forall p | p in stash[1..] ensures p in stash {}
      InsertCovers(stash[1..], capability, data);
    }
  }

  lemma {:induction false} DropEmptyCovers<D>(stash: seq<Pending<D>>)
    requires Covered(stash)
    ensures Covered(DropEmpty(stash))
  {
    if stash != [] {
      assert stash[0] in stash;
      forall p | p in stash[1..] ensures p in stash {}
      DropEmptyCovers(stash[1..]);
    }
  }

  lemma {:induction false} StashedMember<D>(stash: seq<Pending<D>>, i: nat)
    requires i < |stash|
    ensures forall r :: r in stash[i].requests ==> r in Stashed(stash)
  {
    if i > 0 { StashedMember(stash[1..], i - 1); }
  }

  /** The answers a complete index gives to requests. */
  ghost function Answers<K, D, O>(answer: (D, seq<(K, int)>) -> seq<O>, full: Stream<K>, s: Stream<D>): Stream<O> {
    FlatMap(s, (d: D, at: Moment) => answer(d, Visible(full, at)))
  }

  lemma AnswerOne<K, D, O>(answer: (D, seq<(K, int)>) -> seq<O>, full: Stream<K>, s: Stream<D>, r: Record<D, Moment>)
    ensures Answers(answer, full, s + [r]) ==
      Answers(answer, full, s) + Spread(answer(r.data, Visible(full, r.time)), r.time, r.diff)
  {
    var f := (d: D, at: Moment) => answer(d, Visible(full, at));
    FlatMapConcat(s, [r], f);
    assert [r][1..] == [];
    assert FlatMap([r], f) == Spread(f(r.data, r.time), r.time, r.diff) + FlatMap([r][1..], f);
  }

  /** An answered request is marked, and only then counts as answered. */
  lemma MarkRequest<D(!new)>(seen: Stream<D>, done: Stream<D>, marked: Stream<D>, r: Record<D, Moment>)
    requires Splits(seen, done, marked)
    ensures Splits(seen + [r], done + [r], marked + [r.(diff := 0)])
    ensures Splits(seen + [r], done, marked + [r])
  {
    var zero := r.(diff := 0);
    assert [zero][1..] == [];
    forall q ensures Times(seen + [r], q) == Times(done + [r], q) + Times(marked + [zero], q)
             ensures Times(seen + [r], q) == Times(done, q) + Times(marked + [r], q) {
      TimesConcat(seen, [r], q);
      TimesConcat(done, [r], q);
      TimesConcat(marked, [r], q);
      TimesConcat(marked, [zero], q);
    }
  }

  lemma DropMarked<D(!new)>(all: Stream<D>, done: Stream<D>, marked: Stream<D>)
    requires Splits(all, done, marked)
    ensures Splits(all, done, NonZero(marked))
  {
    forall q ensures Times(NonZero(marked), q) == Times(marked, q) { TimesNonZero(marked, q); }
  }

  /** What is not marked is an original request that has to wait. */
  ghost predicate Deferred<D>(marked: Stream<D>, requests: Stream<D>, frontier: Frontier) {
    forall r :: r in marked ==> r.diff == 0 || (r in requests && !Beyond(frontier, r.time))
  }

  lemma {:induction false} DeferredRemain<D>(marked: Stream<D>, requests: Stream<D>, frontier: Frontier)
    requires Deferred(marked, requests, frontier)
    ensures NotBefore(NonZero(marked), frontier) && forall r :: r in NonZero(marked) ==> r in requests
  {
    if marked != [] {
      assert marked[0] in marked && forall r :: r in marked[1..] ==> r in marked;
      DeferredRemain(marked[1..], requests, frontier);
    }
  }

  lemma NextPending<D>(stash: seq<Pending<D>>, i: nat, done: seq<Pending<D>>, q: Pending<D>)
    requires i < |stash|
    ensures stash[i] in stash && forall r :: r in stash[i].requests ==> r in Stashed(stash)
    ensures Stashed(stash[i..]) == stash[i].requests + Stashed(stash[i + 1..])
    ensures Stashed(done + [q]) == Stashed(done) + q.requests
  {
    StashedMember(stash, i);
    assert stash[i..][0] == stash[i] && stash[i..][1..] == stash[i + 1..];
    StashedConcat(done, [q]);
    assert [q][1..] == [];
    assert Stashed([q]) == q.requests;
  }

  //
  // Answers are independent of the order of requests
  //

  lemma {:induction false} NetOfZeroDiff<O>(bs: seq<O>, time: Moment, o: O, at: Moment)
    ensures Net(Spread(bs, time, 0), o, at) == 0
  {
    if bs != [] {
      assert Spread(bs, time, 0)[1..] == Spread(bs[1..], time, 0);
      NetOfZeroDiff(bs[1..], time, o, at);
    }
  }

  lemma {:induction false} OccursSomewhere<D>(s: Stream<D>, q: Record<D, Moment>) returns (i: nat)
    requires Times(s, q) > 0
    ensures i < |s| && s[i] == q
  {
    if s[0] == q { i := 0; } else { i := OccursSomewhere(s[1..], q); i := i + 1; }
  }

  lemma TimesRemove<D>(s: Stream<D>, i: nat, q: Record<D, Moment>)
    requires i < |s|
    ensures Times(s, q) == Times(s[..i] + s[i + 1..], q) + Times([s[i]], q)
  {
    assert s == s[..i] + ([s[i]] + s[i + 1..]);
    TimesConcat(s[..i], [s[i]] + s[i + 1..], q);
    TimesConcat([s[i]], s[i + 1..], q);
    TimesConcat(s[..i], s[i + 1..], q);
  }

  lemma NetRemove<D, O>(s: Stream<D>, i: nat, f: (D, Moment) -> seq<O>, o: O, at: Moment)
    requires i < |s|
    ensures Net(FlatMap(s, f), o, at) == Net(FlatMap(s[..i] + s[i + 1..], f), o, at) + Net(FlatMap([s[i]], f), o, at)
  {
    var a, b := s[..i], s[i + 1..];
    assert s == a + ([s[i]] + b);
    FlatMapConcat(a, [s[i]] + b, f);
    FlatMapConcat([s[i]], b, f);
    FlatMapConcat(a, b, f);
    NetConcat(FlatMap(a, f), FlatMap([s[i]], f) + FlatMap(b, f), o, at);
    NetConcat(FlatMap([s[i]], f), FlatMap(b, f), o, at);
    NetConcat(FlatMap(a, f), FlatMap(b, f), o, at);
  }

  lemma NetOne<D, O>(r: Record<D, Moment>, f: (D, Moment) -> seq<O>, o: O, at: Moment)
    ensures r.diff == 0 ==> Net(FlatMap([r], f), o, at) == 0
  {
    assert [r][1..] == [];
    assert FlatMap([r], f) == Spread(f(r.data, r.time), r.time, r.diff);
    NetOfZeroDiff(f(r.data, r.time), r.time, o, at);
  }

  /** The same requests, in any order, get the same answers net. */
  lemma {:induction false} SameRequestsSameAnswers<D(!new), O>(a: Stream<D>, b: Stream<D>, f: (D, Moment) -> seq<O>, o: O, at: Moment)
    requires Splits(a, b, [])
    ensures Net(FlatMap(a, f), o, at) == Net(FlatMap(b, f), o, at)
    decreases |a| + |b|
  {
    if a != [] {
      var a' := a[..0] + a[1..];
      NetRemove(a, 0, f, o, at);
      NetOne(a[0], f, o, at);
      forall q ensures Times(a, q) == Times(a', q) + Times([a[0]], q) { TimesRemove(a, 0, q); }
      if a[0].diff == 0 {
        forall q ensures Times([a[0]], q) == 0 { assert [a[0]][1..] == []; }
        SameRequestsSameAnswers(a', b, f, o, at);
      } else {
        assert Times([a[0]], a[0]) == 1 by { assert [a[0]][1..] == []; }
        var i := OccursSomewhere(b, a[0]);
        NetRemove(b, i, f, o, at);
        var b' := b[..i] + b[i + 1..];
        forall q ensures Times(b, q) == Times(b', q) + Times([a[0]], q) { TimesRemove(b, i, q); }
        SameRequestsSameAnswers(a', b', f, o, at);
      }
    } else if b != [] {
      var b' := b[..0] + b[1..];
      NetRemove(b, 0, f, o, at);
      NetOne(b[0], f, o, at);
      forall q ensures Times(b, q) == Times(b', q) + Times([b[0]], q) { TimesRemove(b, 0, q); }
      assert Times(b, b[0]) == 0;
      SameRequestsSameAnswers(a, b', f, o, at);
    }
  }

  /** What remains of the first capabilities after working them off. */
  ghost predicate Remains<D>(done: seq<Pending<D>>, stash: seq<Pending<D>>, frontier: Frontier) {
    && NotBefore(Stashed(done), frontier) && Covered(done)
    && (forall r :: r in Stashed(done) ==> r in Stashed(stash))
  }

  lemma RemainsStep<D>(done: seq<Pending<D>>, stash: seq<Pending<D>>, i: nat, q: Pending<D>, frontier: Frontier)
    requires i < |stash| && Remains(done, stash, frontier)
    requires AllSince(q.requests, q.capability) && NotBefore(q.requests, frontier)
    requires forall r :: r in q.requests ==> r in stash[i].requests
    ensures Remains(done + [q], stash, frontier)
  {
    NextPending(stash, i, done, q);
  }

  lemma RemainsDropped<D>(done: seq<Pending<D>>, stash: seq<Pending<D>>, frontier: Frontier)
    requires Remains(done, stash, frontier)
    ensures Remains(DropEmpty(done), stash, frontier) && Stashed(DropEmpty(done)) == Stashed(done)
  {
    DropEmptyKeepsRequests(done);
    DropEmptyCovers(done);
  }

  /** Working off one capability keeps every request answered or waiting. */
  lemma WorkOff<D(!new)>(requested: Stream<D>, before: Stream<D>, now: Stream<D>, kept: Stream<D>, requests: Stream<D>,
                         rest: Stream<D>, todo: Stream<D>)
    requires Splits(requested, before, kept + (requests + todo))
    requires Splits(requests, now, rest)
    ensures Splits(requested, before + now, (kept + rest) + todo)
  {
    forall q ensures Times(requested, q) == Times(before + now, q) + Times((kept + rest) + todo, q) {
      TimesConcat(kept, requests + todo, q);
      TimesConcat(requests, todo, q);
      TimesConcat(before, now, q);
      TimesConcat(kept + rest, todo, q);
      TimesConcat(kept, rest, q);
    }
  }

  lemma ReceiveSplits<D(!new)>(requested: Stream<D>, answered: Stream<D>, stash: seq<Pending<D>>, capability: Moment, data: Stream<D>)
    requires Splits(requested, answered, Stashed(stash))
    ensures Splits(requested + data, answered, Stashed(Insert(stash, capability, data)))
  {
    forall q ensures Times(requested + data, q) == Times(answered, q) + Times(Stashed(Insert(stash, capability, data)), q) {
      TimesConcat(requested, data, q);
      InsertTimes(stash, capability, data, q);
    }
  }

  class LookupOperator<K(!new), D(!new), O> {
    /** The per-request look-up into what is visible of the index. */
    const answer: (D, seq<(K, int)>) -> seq<O>
    /** The index as it will be once all its batches have arrived. */
    ghost const full: Stream<K>

    var stash: seq<Pending<D>>
    var trace: Stream<K>
    var frontier: Frontier
    var output: Stream<O>

    ghost var since: Moment
    ghost var arrived: nat
    ghost var requested: Stream<D>
    ghost var answered: Stream<D>

    ghost predicate IndexValid()
      reads this`trace, this`frontier, this`since, this`arrived
    {
      IndexHolds(trace, full, arrived, frontier, since)
    }

    /** Answers are those of the complete index, given only at complete times. */
    ghost predicate AnswersValid()
      reads this`output, this`answered, this`frontier
    {
      output == Answers(answer, full, answered) && AllBeyond(answered, frontier)
    }

    /** Every request is answered or waiting, and none is both. */
    ghost predicate StashValid()
      reads this`stash, this`since, this`requested, this`answered
    {
      && AllSince(Stashed(stash), since) && Covered(stash) && Grouped(stash)
      && Splits(requested, answered, Stashed(stash))
    }

    ghost predicate Valid()
      reads this
    {
      IndexValid() && AnswersValid() && StashValid()
    }

    constructor (answer: (D, seq<(K, int)>) -> seq<O>, ghost full: Stream<K>, start: Moment)
      requires AllSince(full, start)
      ensures Valid() && this.answer == answer && this.full == full
      ensures requested == [] && output == [] && stash == [] && since == start && frontier == Some(start) && arrived == 0
    {
      this.answer, this.full := answer, full;
      stash, trace, output, frontier := [], [], [], Some(start);
      since, arrived, requested, answered := start, 0, [], [];
    }

    /** Requests arrive under a capability and are stashed. */
    method Receive(capability: Moment, data: Stream<D>)
      requires Valid()
      requires AllSince(data, capability) && AllSince(data, since)
      modifies this`stash, this`requested
      ensures Valid() && requested == old(requested) + data
    {
      ReceiveSplits(requested, answered, stash, capability, data);
      InsertSince(stash, capability, data, since);
      InsertCovers(stash, capability, data);
      InsertGroups(stash, capability, data);
      stash := Insert(stash, capability, data);
      requested := requested + data;
    }

    /** A batch of index updates arrives, and with it a later frontier. */
    method ExtendIndex(batch: Stream<K>, upper: Frontier)
      requires Valid()
      requires Precedes(frontier, upper)
      requires arrived + |batch| <= |full| && full[arrived..arrived + |batch|] == batch
      requires NotBefore(full[arrived + |batch|..], upper)
      modifies this`trace, this`frontier, this`arrived
      ensures Valid() && frontier == upper && arrived == old(arrived) + |batch|
    {
      var extended := trace + batch;
      ghost var now := arrived + |batch|;
      IndexExtends(trace, full, arrived, batch, frontier, upper, since);
      BeyondMonotone(answered, frontier, upper);
      assert IndexHolds(extended, full, now, upper, since) && AllBeyond(answered, upper) && StashValid();
      trace, frontier, arrived := extended, upper, now;
    }

    /** Compaction to any later time. Every answer given so far stays right, and
        the operator as a whole stays right exactly if no waiting request was
        passed. */
    method Compact(to: Moment)
      requires Valid() && Le(since, to)
      modifies this`trace, this`since
      ensures since == to && IndexValid() && AnswersValid()
      ensures Valid() <==> AllSince(Stashed(stash), to)
    {
      FaithfulCompacts(trace, full[..arrived], since, to);
      trace, since := Compacted(trace, to), to;
    }

    method Answer(r: Record<D, Moment>)
      requires IndexValid() && AnswersValid()
      requires Beyond(frontier, r.time) && Le(since, r.time)
      modifies this`output, this`answered
      ensures AnswersValid() && answered == old(answered) + [r]
    {
      BeyondFrontierIsComplete(trace, full, arrived, frontier, since, r.time);
      AnswerOne(answer, full, answered, r);
      output := output + Spread(answer(r.data, Visible(trace, r.time)), r.time, r.diff);
      answered := answered + [r];
    }

    /** Answers the requests of one capability that lie beyond the frontier; what
        is answered is marked with a zero diff and then dropped. */
    method Process(requests: Stream<D>) returns (rest: Stream<D>, ghost now: Stream<D>)
      requires IndexValid() && AnswersValid() && AllSince(requests, since)
      modifies this`output, this`answered
      ensures AnswersValid() && answered == old(answered) + now
      ensures Splits(requests, now, rest)
      ensures NotBefore(rest, frontier) && forall r :: r in rest ==> r in requests
      ensures forall r :: r in rest ==> frontier.Some? && Le(frontier.value, r.time)
      ensures forall r :: r in now ==> r in requests && (frontier.None? || !Le(frontier.value, r.time))
    {
      var marked := [];
      now := [];
      for i := 0 to |requests|
        invariant AnswersValid() && answered == old(answered) + now
        invariant Splits(requests[..i], now, marked)
        invariant forall r :: r in now ==> r in requests && (frontier.None? || !Le(frontier.value, r.time))
        invariant Deferred(marked, requests, frontier)
      {
        var r := requests[i];
        assert requests[..i + 1] == requests[..i] + [r];
        MarkRequest(requests[..i], now, marked, r);
        if Beyond(frontier, r.time) {
          Answer(r);
          now := now + [r];
          marked := marked + [r.(diff := 0)];
        } else {
          marked := marked + [r];
        }
      }
      assert requests[..|requests|] == requests;
      DropMarked(requests, now, marked);
      DeferredRemain(marked, requests, frontier);
      rest := NonZero(marked);
    }

    /** Works off one capability, unless none of its requests can be complete yet. */
    method WorkPending(p: Pending<D>, ghost kept: Stream<D>, ghost todo: Stream<D>) returns (q: Pending<D>)
      requires IndexValid() && AnswersValid()
      requires AllSince(p.requests, since) && AllSince(p.requests, p.capability)
      requires Splits(requested, answered, kept + (p.requests + todo))
      modifies this`output, this`answered
      ensures AnswersValid() && old(answered) <= answered && Splits(requested, answered, (kept + q.requests) + todo)
      ensures q.capability == p.capability && AllSince(q.requests, q.capability)
      ensures NotBefore(q.requests, frontier) && forall r :: r in q.requests ==> r in p.requests
    {
      ghost var before, now := answered, [];
      q := p;
      if Beyond(frontier, p.capability) {
        var rest;
        rest, now := Process(p.requests);
        q := Pending(p.capability, rest);
      }
      assert before + now == answered;
      WorkOff(requested, before, now, kept, p.requests, q.requests, todo);
    }

    /** One activation: every request at a time the index frontier has left behind
        is answered, as often as it was made, and all others wait. */
    method Work()
      requires Valid()
      modifies this`stash, this`output, this`answered
      ensures Valid() && old(answered) <= answered
      ensures NotBefore(Stashed(stash), frontier)
      ensures forall r :: r in Stashed(stash) ==> r in old(Stashed(stash))
      ensures forall r :: r in Stashed(stash) ==> frontier.Some? && Le(frontier.value, r.time)
      ensures forall r :: r in answered ==> frontier.None? || !Le(frontier.value, r.time)
      ensures forall q: Record<D, Moment> :: frontier.None? || !Le(frontier.value, q.time) ==> Times(answered, q) == Times(requested, q)
      ensures forall p :: p in stash ==> p.requests != []
    {
      var done := WorkAll(stash);
      RemainsDropped(done, stash, frontier);
      NoneIsEmpty(done);
      DropEmptyGroups(done);
      stash := DropEmpty(done);
      AnsweredBehind(requested, answered, Stashed(stash), frontier);
    }

    /** Works off one capability after the other. */
    method WorkAll(waiting: seq<Pending<D>>) returns (done: seq<Pending<D>>)
      requires Valid() && waiting == stash
      modifies this`output, this`answered
      ensures AnswersValid() && old(answered) <= answered
      ensures Splits(requested, answered, Stashed(done)) && Remains(done, waiting, frontier) && Grouped(done)
    {
      done := [];
      assert Stashed(done) + Stashed(waiting[0..]) == Stashed(waiting) by { assert waiting[0..] == waiting; }
      for i := 0 to |waiting|
        invariant AnswersValid() && old(answered) <= answered
        invariant Splits(requested, answered, Stashed(done) + Stashed(waiting[i..]))
        invariant Remains(done, waiting, frontier)
        invariant |done| == i && forall k :: 0 <= k < i ==> done[k].capability == waiting[k].capability
      {
        NextPending(waiting, i, done, waiting[i]);
        var q := WorkPending(waiting[i], Stashed(done), Stashed(waiting[i + 1..]));
        RemainsStep(done, waiting, i, q, frontier);
        NextPending(waiting, i, done, q);
        done := done + [q];
      }
      assert Stashed(done) + Stashed(waiting[|waiting|..]) == Stashed(done);
    }

    /** Once the index is complete, one activation has answered every request. */
    lemma CompleteIndexAnswersAll()
      requires Valid() && NotBefore(Stashed(stash), frontier) && frontier.None?
      ensures Stashed(stash) == [] && Splits(requested, answered, [])
    {
      if Stashed(stash) != [] { assert Stashed(stash)[0] in Stashed(stash); }
    }

    /** By then the output is, net, what looking every request up in the complete
        index gives, in whatever order requests and batches have arrived. */
    lemma OutputIsLookup(o: O, at: Moment)
      requires Valid() && NotBefore(Stashed(stash), frontier) && frontier.None?
      ensures Net(output, o, at) == Net(Answers(answer, full, requested), o, at)
    {
      CompleteIndexAnswersAll();
      SameRequestsSameAnswers(requested, answered, (d: D, at: Moment) => answer(d, Visible(full, at)), o, at);
    }
  }

  //
  // The three operators
  //

  function Total<K(==)>(entries: seq<(K, int)>, k: K): int {
    if entries == [] then 0 else (if entries[0].0 == k then entries[0].1 else 0) + Total(entries[1..], k)
  }

  lemma {:induction false} AccumulatedIsTotal<K>(trace: Stream<K>, k: K, at: Moment)
    ensures Accumulated(trace, k, at) == Total(Visible(trace, at), k)
  {
    if trace != [] {
      AccumulatedIsTotal(trace[1..], k, at);
      if Le(trace[0].time, at) {
        assert Visible(trace, at)[1..] == Visible(trace[1..], at);
      } else {
        assert Visible(trace, at) == Visible(trace[1..], at);
      }
    }
  }

  /** Annotates a prefix with the number of entries under its key. */
  function CountLookup(offset: nat, index: nat, n: Nomination, entries: seq<(Value, int)>): seq<Nomination> {
    var count := AsUsize(Total(entries, At(n.prefix, offset)));
    if count > 0 then [if count < n.count then Nomination(n.prefix, count, index) else n] else []
  }

  /** Extends a prefix by all values present under its key. */
  function ProposeLookup(offset: nat, p: Tuple, entries: seq<((Value, Value), int)>): seq<Extension> {
    var key := At(p, offset);
    ExtendBy(p, Present(entries, key, ValuesUnder(entries, key)))
  }

  function Present(entries: seq<((Value, Value), int)>, key: Value, vs: seq<Value>): seq<Value> {
    if vs == [] then []
    else (if Total(entries, (key, vs[0])) > 0 then [vs[0]] else []) + Present(entries, key, vs[1..])
  }

  /** Keeps an extension that is present. */
  function ValidateLookup(offset: nat, e: Extension, entries: seq<((Value, Value), int)>): seq<Extension> {
    if Total(entries, (At(e.prefix, offset), e.value)) > 0 then [e] else []
  }

  lemma {:induction false} PresentIsKept(trace: Stream<(Value, Value)>, key: Value, vs: seq<Value>, at: Moment)
    ensures Present(Visible(trace, at), key, vs) == KeepPresent(trace, key, vs, at)
  {
    if vs != [] {
      AccumulatedIsTotal(trace, (key, vs[0]), at);
      PresentIsKept(trace, key, vs[1..], at);
    }
  }

  lemma AnswersAre<K, D, O>(answer: (D, seq<(K, int)>) -> seq<O>, full: Stream<K>, s: Stream<D>, f: (D, Moment) -> seq<O>)
    requires forall r :: r in s ==> f(r.data, r.time) == answer(r.data, Visible(full, r.time))
    ensures FlatMap(s, f) == Answers(answer, full, s)
  {
    FlatMapSame(s, f, (d: D, at: Moment) => answer(d, Visible(full, at)));
  }

  /** The collection extender's operations are look-ups into its three indices,
      so each is what its operator outputs. */
  lemma CountIsLookup(x: Extender, s: Stream<Nomination>, index: nat, answer: (Nomination, seq<(Value, int)>) -> seq<Nomination>)
    requires x.CollectionExtender?
    requires forall n, entries :: answer(n, entries) == CountLookup(x.offset, index, n, entries)
    ensures Count(x, s, index) == Some(Answers(answer, x.count, s))
  {
    forall n: Nomination, at: Moment ensures CountStep(x, index, n, at) == answer(n, Visible(x.count, at)) {
      AccumulatedIsTotal(x.count, At(n.prefix, x.offset), at);
    }
    AnswersAre(answer, x.count, s, (n: Nomination, at: Moment) => CountStep(x, index, n, at));
  }

  lemma ProposeIsLookup(x: Extender, s: Stream<Tuple>, answer: (Tuple, seq<((Value, Value), int)>) -> seq<Extension>)
    requires x.CollectionExtender?
    requires forall p, entries :: answer(p, entries) == ProposeLookup(x.offset, p, entries)
    ensures Propose(x, s) == Ok(Answers(answer, x.propose, s))
  {
    forall p: Tuple, at: Moment ensures ExtendBy(p, Proposals(x, p, at)) == answer(p, Visible(x.propose, at)) {
      PresentIsKept(x.propose, At(p, x.offset), ValuesUnder(Visible(x.propose, at), At(p, x.offset)), at);
    }
    AnswersAre(answer, x.propose, s, (p: Tuple, at: Moment) => ExtendBy(p, Proposals(x, p, at)));
  }

  lemma ValidateIsLookup(x: Extender, s: Stream<Extension>, answer: (Extension, seq<((Value, Value), int)>) -> seq<Extension>)
    requires x.CollectionExtender?
    requires forall e, entries :: answer(e, entries) == ValidateLookup(x.offset, e, entries)
    ensures Validate(x, s) == Answers(answer, x.validate, s)
  {
    forall e: Extension, at: Moment ensures (if Accepts(x, e, at) then [e] else []) == answer(e, Visible(x.validate, at)) {
      AccumulatedIsTotal(x.validate, (At(e.prefix, x.offset), e.value), at);
    }
    AnswersAre(answer, x.validate, s, (e: Extension, at: Moment) => if Accepts(x, e, at) then [e] else []);
  }
}
