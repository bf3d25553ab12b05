/** Input sessions: updates are buffered and shipped under a capability. */
module Sessions {
  import opened Values
  import opened Collections

  type Update = Record<(Value, Value), nat>

  /** A batch handed to the dataflow under a capability. */
  datatype Shipment = Shipment(capability: nat, records: seq<Update>)

  function Handed(sent: seq<Shipment>): seq<Update> {
    if sent == [] then [] else Handed(sent[..|sent| - 1]) + sent[|sent| - 1].records
  }

  /** Capabilities never decrease, and none is later than the current one. */
  ghost predicate Ascending(sent: seq<Shipment>, cap: nat) {
    && (forall i, j :: 0 <= i < j < |sent| ==> sent[i].capability <= sent[j].capability)
    && (forall i :: 0 <= i < |sent| ==> sent[i].capability <= cap)
  }

  /** What is shipped from one state to the other carries at least capability `t`. */
  ghost predicate ShipsFrom(before: seq<Shipment>, after: seq<Shipment>, t: nat) {
    before <= after && forall i :: |before| <= i < |after| ==> t <= after[i].capability
  }

  /** The shipments after the buffered updates, if any, leave under capability `cap`. */
  function Ship(sent: seq<Shipment>, cap: nat, buffer: seq<Update>): seq<Shipment> {
    if buffer == [] then sent else sent + [Shipment(cap, buffer)]
  }

  /** The state of a session as a value. */
  datatype Session = Session(time: nat, cap: nat, buffer: seq<Update>, capacity: nat, sent: seq<Shipment>)
  {
    /** Nothing is shipped, or waits to be shipped, under a capability that is
        later than its own time. */
    ghost predicate Valid() {
      && cap <= time && |buffer| <= capacity
      && (forall r :: r in buffer ==> cap <= r.time)
      && (forall s, r :: s in sent && r in s.records ==> s.capability <= r.time)
    }

    /** Everything the session has accepted, in order: handed over, then buffered. */
    function Accepted(): seq<Update> { Handed(sent) + buffer }

    function Drained(): Session {
      this.(buffer := [], sent := if buffer == [] then sent else sent + [Shipment(cap, buffer)])
    }

    function Pushed(r: Update): Session {
      var ready := Ready(this);
      ready.(buffer := ready.buffer + [r])
    }

    function Flushed(): Session {
      var drained := Drained();
      if cap < time then drained.(cap := time) else drained
    }
  }

  const RESERVED: nat := 1024

  /** `Vec::reserve`: room for 1024 more, at least doubling when it must grow. */
  function Reserved(s: Session): Session {
    if s.capacity >= |s.buffer| + RESERVED then s
    else s.(capacity := if 2 * s.capacity > |s.buffer| + RESERVED then 2 * s.capacity else |s.buffer| + RESERVED)
  }

  lemma DrainedKeeps(s: Session)
    requires s.Valid()
    ensures s.Drained().Valid() && s.Drained().Accepted() == s.Accepted() && s.Drained().buffer == []
    ensures Handed(s.Drained().sent) == s.Accepted()
  {
    var sent := s.Drained().sent;
    if s.buffer != [] { assert sent[..|sent| - 1] == s.sent; }
  }

  /** A full session drains its buffer and makes room. */
  function Ready(s: Session): Session {
    if |s.buffer| == s.capacity then Reserved(s.Drained()) else s
  }

  lemma ReadyKeeps(s: Session)
    requires s.Valid()
    ensures Ready(s).Valid() && Ready(s).Accepted() == s.Accepted() && |Ready(s).buffer| < Ready(s).capacity
    ensures Ready(s).time == s.time && Ready(s).cap == s.cap
    ensures Handed(s.sent) <= Handed(Ready(s).sent)
  {
    if |s.buffer| == s.capacity {
      DrainedKeeps(s);
      var drained := s.Drained();
      assert Ready(s) == drained.(capacity := Ready(s).capacity);
      assert Ready(s).Accepted() == Handed(drained.sent) + [];
    }
  }

  lemma AppendedAccepts(s: Session, r: Update)
    requires s.Valid() && s.cap <= r.time && |s.buffer| < s.capacity
    ensures var e := s.(buffer := s.buffer + [r]); e.Valid() && e.Accepted() == s.Accepted() + [r]
  {
    assert Handed(s.sent) + (s.buffer + [r]) == Handed(s.sent) + s.buffer + [r];
  }

  /** Pushing accepts one more update, at the end. */
  lemma PushedAccepts(s: Session, r: Update)
    requires s.Valid() && s.cap <= r.time
    ensures s.Pushed(r).Valid()
    ensures s.Pushed(r).Accepted() == s.Accepted() + [r]
    ensures s.Pushed(r).time == s.time && s.Pushed(r).cap == s.cap
    ensures Handed(s.sent) <= Handed(s.Pushed(r).sent)
    ensures |s.buffer| < s.capacity ==> s.Pushed(r) == s.(buffer := s.buffer + [r])
    ensures |s.buffer| == s.capacity ==> s.Pushed(r).buffer == [r] && s.Pushed(r).sent == Ship(s.sent, s.cap, s.buffer)
    ensures |s.buffer| == s.capacity ==> s.capacity <= s.Pushed(r).capacity && 1024 <= s.Pushed(r).capacity
  {
    ReadyKeeps(s);
    AppendedAccepts(Ready(s), r);
    assert s.Pushed(r) == Ready(s).(buffer := Ready(s).buffer + [r]);
  }

  lemma PushedAscends(s: Session, r: Update)
    requires |s.buffer| <= s.capacity && Ascending(s.sent, s.cap)
    ensures Ascending(s.Pushed(r).sent, s.Pushed(r).cap) && ShipsFrom(s.sent, s.Pushed(r).sent, s.cap) && s.Pushed(r).cap == s.cap
  {
  }

  lemma FlushedAscends(s: Session)
    requires s.cap <= s.time && Ascending(s.sent, s.cap)
    ensures Ascending(s.Flushed().sent, s.Flushed().cap) && ShipsFrom(s.sent, s.Flushed().sent, s.cap) && s.cap <= s.Flushed().cap
  {
  }

  /** Flushing hands over all that was accepted and moves the capability up. */
  lemma FlushedHandsOver(s: Session)
    requires s.Valid()
    ensures s.Flushed().Valid()
    ensures s.Flushed().Accepted() == s.Accepted() == Handed(s.Flushed().sent)
    ensures s.Flushed().buffer == [] && s.Flushed().time == s.time == s.Flushed().cap
    ensures s.Flushed().sent == Ship(s.sent, s.cap, s.buffer) && s.Flushed().capacity == s.capacity
  {
    DrainedKeeps(s);
  }

  class UnorderedSession {
    var time: nat
    var cap: nat
    var buffer: seq<Update>
    var capacity: nat
    /** What went through the input handle. */
    var sent: seq<Shipment>

    function State(): Session
      reads this
    {
      Session(time, cap, buffer, capacity, sent)
    }

    ghost predicate Valid()
      reads this
    {
      State().Valid() && Ascending(sent, cap)
    }

    constructor (cap: nat)
      ensures Valid() && State() == Session(cap, cap, [], 0, [])
    {
      this.time, this.cap, this.buffer, this.capacity, this.sent := cap, cap, [], 0, [];
    }

    method Push(r: Update)
      requires Valid() && cap <= r.time
      modifies this
      ensures Valid() && State() == old(State()).Pushed(r)
      ensures time == old(time) && cap == old(cap)
      ensures old(|buffer| < capacity) ==> sent == old(sent) && buffer == old(buffer) + [r] && capacity == old(capacity)
      ensures old(|buffer| == capacity) ==> sent == Ship(old(sent), cap, old(buffer)) && buffer == [r] && 1024 <= capacity
    {
      PushedAccepts(State(), r);
      PushedAscends(State(), r);
      if |buffer| == capacity {
        if buffer != [] {
          sent := sent + [Shipment(cap, buffer)];
          buffer := [];
        }
        if capacity < |buffer| + RESERVED {
          capacity := if 2 * capacity > |buffer| + RESERVED then 2 * capacity else |buffer| + RESERVED;
        }
      }
      buffer := buffer + [r];
    }

    /** Adds to the weight of an element at the time of the capability. */
    method Update(element: (Value, Value), change: int)
      requires Valid()
      modifies this
      ensures Valid() && State() == old(State()).Pushed(Record(element, old(cap), change))
    {
      Push(Record(element, cap, change));
    }

    /** Adds to the weight of an element at a later time. */
    method UpdateAt(element: (Value, Value), at: nat, change: int)
      requires Valid() && cap <= at
      modifies this
      ensures Valid() && State() == old(State()).Pushed(Record(element, at, change))
    {
      Push(Record(element, at, change));
    }

    method Flush()
      requires Valid()
      modifies this
      ensures Valid() && State() == old(State()).Flushed()
      ensures sent == Ship(old(sent), old(cap), old(buffer)) && buffer == [] && time == cap == old(time) && capacity == old(capacity)
    {
      FlushedHandsOver(State());
      FlushedAscends(State());
      if buffer != [] { sent := sent + [Shipment(cap, buffer)]; }
      buffer := [];
      if cap < time { cap := time; }
    }

    method AdvanceTo(next: nat)
      requires Valid() && time <= next
      modifies this
      ensures Valid() && State() == old(State()).(time := next) && time == next
    {
      time := next;
    }

    /** Closing drops the session, which flushes it. */
    method Close()
      requires Valid()
      modifies this
      ensures Valid() && State() == old(State()).Flushed()
    {
      Flush();
    }
  }
}
