/** Nested maps, and how paths are written into them. */
module NestedMaps {
  import opened Bindings

  datatype Json = Text(text: string) | Truth(b: bool) | Numeric(n: int) | Object(entries: Entries)

  type Entries = map<string, Json>

  type Location = seq<string>

  /** Writes or removes the value at a location. Missing levels are created; a
      level that is not an object leaves everything as it is. */
  function Put(entries: Entries, loc: Location, leaf: Option<Json>): Entries
    requires loc != []
    decreases |loc|
  {
    if |loc| == 1 then
      if leaf.Some? then entries[loc[0] := leaf.value] else entries - {loc[0]}
    else
      var child := Child(entries, loc[0]);
      if child.Object? then entries[loc[0] := Object(Put(child.entries, loc[1..], leaf))] else entries
  }

  function Child(entries: Entries, key: string): Json {
    if key in entries then entries[key] else Object(map[])
  }

  function Get(entries: Entries, loc: Location): Option<Json>
    requires loc != []
    decreases |loc|
  {
    if loc[0] !in entries then None
    else if |loc| == 1 then Some(entries[loc[0]])
    else if entries[loc[0]].Object? then Get(entries[loc[0]].entries, loc[1..])
    else None
  }

  /** Nothing but objects on the way to a location. */
  predicate Open(entries: Entries, loc: Location)
    requires loc != []
    decreases |loc|
  {
    |loc| > 1 ==> var child := Child(entries, loc[0]); child.Object? && Open(child.entries, loc[1..])
  }

  /** The walk of the sink: keys of objects must be present, and anything else
      stands for itself. */
  predicate Walkable(entries: Entries, key: Location)
    decreases |key|
  {
    && key != [] && key[0] in entries
    && (|key| > 1 && entries[key[0]].Object? ==> Walkable(entries[key[0]].entries, key[1..]))
  }

  /** What the walk of the sink arrives at. */
  function Snapshot(entries: Entries, key: Location): Json
    requires Walkable(entries, key)
    decreases |key|
  {
    if |key| > 1 && entries[key[0]].Object? then Snapshot(entries[key[0]].entries, key[1..]) else entries[key[0]]
  }

  predicate Unrelated(a: Location, b: Location) { !(a <= b) && !(b <= a) }

  lemma PrefixTail(a: Location, b: Location)
    requires a != [] && b != [] && a[0] == b[0]
    ensures a <= b <==> a[1..] <= b[1..]
  {
    assert a == [a[0]] + a[1..] && b == [b[0]] + b[1..];
    if a[1..] <= b[1..] {
      assert a == b[..|a|];
    }
  }

  lemma {:induction false} GetPut(entries: Entries, loc: Location, leaf: Option<Json>)
    requires loc != [] && Open(entries, loc)
    ensures Get(Put(entries, loc, leaf), loc) == leaf
    ensures Open(Put(entries, loc, leaf), loc)
    decreases |loc|
  {
    if |loc| > 1 { GetPut(Child(entries, loc[0]).entries, loc[1..], leaf); }
  }

  /** Something on the way that is not an object keeps everything as it is. */
  lemma {:induction false} PutBlocked(entries: Entries, loc: Location, leaf: Option<Json>)
    requires loc != [] && !Open(entries, loc)
    ensures Put(entries, loc, leaf) == entries
    decreases |loc|
  {
    var child := Child(entries, loc[0]);
    if child.Object? {
      PutBlocked(child.entries, loc[1..], leaf);
      if loc[0] !in entries { OpenEmpty(loc[1..]); }
    }
  }

  lemma {:induction false} OpenEmpty(loc: Location)
    requires loc != []
    ensures Open(map[], loc)
    decreases |loc|
  {
    if |loc| > 1 { OpenEmpty(loc[1..]); }
  }

  lemma {:induction false} GetPutOther(entries: Entries, loc: Location, leaf: Option<Json>, other: Location)
    requires loc != [] && other != [] && Unrelated(loc, other)
    ensures Get(Put(entries, loc, leaf), other) == Get(entries, other)
    ensures Open(entries, other) ==> Open(Put(entries, loc, leaf), other)
    decreases |loc|
  {
    if loc[0] == other[0] {
      PrefixTail(loc, other);
      PrefixTail(other, loc);
      if |loc| > 1 && |other| > 1 && Child(entries, loc[0]).Object? {
        GetPutOther(Child(entries, loc[0]).entries, loc[1..], leaf, other[1..]);
      }
    }
  }

  /** A write makes every level above it walkable. */
  lemma {:induction false} PutWalkable(entries: Entries, loc: Location, leaf: Option<Json>, key: Location)
    requires key != [] && key <= loc && |key| < |loc|
    ensures Walkable(Put(entries, loc, leaf), key)
    decreases |loc|
  {
    if |key| > 1 && Child(entries, loc[0]).Object? {
      PrefixTail(key, loc);
      PutWalkable(Child(entries, loc[0]).entries, loc[1..], leaf, key[1..]);
    }
  }

  /** A write keeps walkable what does not run through its location. */
  lemma {:induction false} PutKeepsWalkable(entries: Entries, loc: Location, leaf: Option<Json>, key: Location)
    requires loc != [] && Walkable(entries, key) && !(loc <= key)
    ensures Walkable(Put(entries, loc, leaf), key)
    decreases |loc|
  {
    if loc[0] == key[0] {
      PrefixTail(loc, key);
      if |loc| > 1 && |key| > 1 && entries[key[0]].Object? {
        PutKeepsWalkable(entries[key[0]].entries, loc[1..], leaf, key[1..]);
      }
    }
  }

  /** The walk of the sink ends at what the key locates, or at the value on the way
      to it that is not an object. */
  lemma {:induction false} SnapshotIs(entries: Entries, key: Location) returns (n: nat)
    requires Walkable(entries, key)
    ensures 0 < n <= |key| && Get(entries, key[..n]) == Some(Snapshot(entries, key))
    ensures n < |key| ==> !Snapshot(entries, key).Object?
    decreases |key|
  {
    if |key| > 1 && entries[key[0]].Object? {
      n := SnapshotIs(entries[key[0]].entries, key[1..]);
      n := n + 1;
      assert key[..n][1..] == key[1..][..n - 1];
    } else {
      n := 1;
      assert key[..1] == [key[0]];
    }
  }

  /** Where only objects are on the way, a key can be walked exactly if it locates
      something, and then the walk ends there. */
  lemma {:induction false} WalkIsGet(entries: Entries, key: Location)
    requires key != [] && Open(entries, key)
    ensures Walkable(entries, key) <==> Get(entries, key).Some?
    ensures Walkable(entries, key) ==> Get(entries, key) == Some(Snapshot(entries, key))
    decreases |key|
  {
    if |key| > 1 { WalkIsGet(Child(entries, key[0]).entries, key[1..]); }
  }

  /** A key that locates something can be walked, and the walk ends there. */
  lemma {:induction false} LocatedIsWalked(entries: Entries, key: Location)
    requires key != [] && Get(entries, key).Some?
    ensures Walkable(entries, key) && Get(entries, key) == Some(Snapshot(entries, key))
    decreases |key|
  {
    if |key| > 1 { LocatedIsWalked(entries[key[0]].entries, key[1..]); }
  }
}

/** The nested-map sink: result paths become nested values. */
module NestedSinks {
  import opened Values
  import opened Bindings
  import opened Extenders
  import opened NestedMaps
  import Sorting

  /** A result path: keys, a leaf key and a leaf value. */
  datatype Update = Update(path: seq<Value>, time: nat, diff: int)

  function Decimal(n: nat): string {
    var digit := ['0' + (n % 10) as char];
    if n < 10 then digit else Decimal(n / 10) + digit
  }

  /** Keys are attributes, entities or strings. */
  function ParseKey(v: Value): Outcome<string> {
    match v
    case Aid(x) => Ok(x)
    case Eid(x) => Ok(Decimal(x))
    case String(x) => Ok(x)
    case _ => Panic
  }

  function ToJson(v: Value): Outcome<Json> {
    match v
    case Eid(x) => Ok(Text(Decimal(x)))
    case Aid(x) => Ok(Text(x))
    case String(x) => Ok(Text(x))
    case Bool(b) => Ok(Truth(b))
    case Number(n) => Ok(Numeric(n))
    case _ => Panic
  }

  predicate AllDigits(s: string) {
    forall i :: 0 <= i < |s| ==> '0' <= s[i] <= '9'
  }

  /** The number a string of digits denotes. */
  function ReadBack(digits: string): int {
    if digits == [] then 0 else 10 * ReadBack(digits[..|digits| - 1]) + (digits[|digits| - 1] as int - '0' as int)
  }

  /** Decimal notation: digits only, no leading zero, and the number reads back. */
  lemma {:induction false} DecimalReadsBack(n: nat)
    ensures Decimal(n) != [] && AllDigits(Decimal(n))
    ensures ReadBack(Decimal(n)) == n && (n > 0 ==> Decimal(n)[0] != '0')
  {
    if n >= 10 {
      DecimalReadsBack(n / 10);
      var front := Decimal(n / 10);
      assert Decimal(n)[..|front|] == front;
    } else {
      assert Decimal(n)[..0] == [];
    }
  }

  lemma DecimalIsInjective(m: nat, n: nat)
    requires Decimal(m) == Decimal(n)
    ensures m == n
  {
    DecimalReadsBack(m);
    DecimalReadsBack(n);
  }

  /** A key is the text of an attribute or string, or the number of an entity; no
      other value is one. */
  lemma KeyReadsBack(v: Value)
    ensures ParseKey(v).Ok? <==> v.Aid? || v.String? || v.Eid?
    ensures v.Aid? ==> ParseKey(v).value == v.aid
    ensures v.String? ==> ParseKey(v).value == v.str
    ensures v.Eid? ==> ReadBack(ParseKey(v).value) == v.eid && AllDigits(ParseKey(v).value)
  {
    if v.Eid? { DecimalReadsBack(v.eid); }
  }

  /** Leaves keep what they hold; rationals, instants and identifiers cannot be
      converted. */
  lemma LeafReadsBack(v: Value)
    ensures ToJson(v).Ok? <==> v.Aid? || v.String? || v.Eid? || v.Bool? || v.Number?
    ensures v.Aid? ==> ToJson(v).value == Text(v.aid)
    ensures v.String? ==> ToJson(v).value == Text(v.str)
    ensures v.Bool? ==> ToJson(v).value.Truth? && ToJson(v).value.b == v.b
    ensures v.Number? ==> ToJson(v).value.Numeric? && ToJson(v).value.n == v.n
    ensures v.Eid? ==> ToJson(v).value.Text? && ReadBack(ToJson(v).value.text) == v.eid && AllDigits(ToJson(v).value.text)
  {
    if v.Eid? { DecimalReadsBack(v.eid); }
  }

  function ParseKeys(vs: seq<Value>): Outcome<Location> {
    if vs == [] then Ok([])
    else
      match (ParseKeys(vs[..|vs| - 1]), ParseKey(vs[|vs| - 1]))
      case (Ok(ks), Ok(k)) => Ok(ks + [k])
      case _ => Panic
  }

  /** The reported part of the keys. */
  function Reported(vs: seq<Value>, granularity: nat): seq<Value> {
    if granularity < |vs| then vs[..granularity] else vs
  }

  /** Descends along the keys, creating missing levels. A level that is not an
      object stops the descent, and nothing is written. */
  function Descend(entries: Entries, keys: seq<Value>, leafKey: string, leaf: Value, diff: int): Outcome<Entries>
    decreases |keys|
  {
    if keys == [] then
      if diff <= 0 then Ok(entries - {leafKey})
      else (match ToJson(leaf) case Panic => Panic case Ok(j) => Ok(entries[leafKey := j]))
    else
      match ParseKey(keys[0])
      case Panic => Panic
      case Ok(key) =>
        var child := Child(entries, key);
        if !child.Object? then Ok(entries)
        else
          match Descend(child.entries, keys[1..], leafKey, leaf, diff)
          case Panic => Panic
          case Ok(es) => Ok(entries[key := Object(es)])
  }

  datatype Merged = Merged(acc: Entries, changes: seq<Location>)

  /** Writes one path. A path of two elements is written even if retracted. */
  function ApplyPath(m: Merged, u: Update, granularity: nat): Outcome<Merged> {
    var n := |u.path|;
    if n < 2 then Panic
    else
      match ParseKey(u.path[n - 2])
      case Panic => Panic
      case Ok(leafKey) =>
        if n == 2 then
          match ToJson(u.path[n - 1])
          case Panic => Panic
          case Ok(j) => Ok(Merged(m.acc[leafKey := j], m.changes + [if 0 < granularity then [leafKey] else []]))
        else
          match (ParseKeys(Reported(u.path[..n - 2], granularity)), Descend(m.acc, u.path[..n - 2], leafKey, u.path[n - 1], u.diff))
          case (Ok(key), Ok(acc)) => Ok(Merged(acc, m.changes + [key]))
          case _ => Panic
  }

  function ApplyAll(m: Merged, us: seq<Update>, granularity: nat): Outcome<Merged> {
    if us == [] then Ok(m)
    else
      match ApplyAll(m, us[..|us| - 1], granularity)
      case Panic => Panic
      case Ok(r) => ApplyPath(r, us[|us| - 1], granularity)
  }

  lemma ApplyOneMore(m: Merged, us: seq<Update>, i: nat, granularity: nat)
    requires i < |us|
    ensures var before := ApplyAll(m, us[..i], granularity);
      ApplyAll(m, us[..i + 1], granularity) == if before.Panic? then Panic else ApplyPath(before.value, us[i], granularity)
  {
    assert us[..i + 1][..i] == us[..i];
  }

  predicate Lower(a: Update, b: Update) { a.diff < b.diff }
  predicate Earlier(a: Update, b: Update) { a.time < b.time }

  /** Retractions first, then by time. */
  function InOrder(us: seq<Update>): seq<Update> { Sorting.Sort(Sorting.Sort(us, Lower), Earlier) }

  predicate LocationLess(a: Location, b: Location) {
    b != [] && (a == [] || StringLess(a[0], b[0]) || (a[0] == b[0] && LocationLess(a[1..], b[1..])))
  }

  /** Sorts the paths, writes them one by one, and reports what has changed. */
  method MergePaths(acc: Entries, paths: seq<Update>, granularity: nat) returns (r: Outcome<Merged>)
    ensures r == MergedInto(acc, paths, granularity)
  {
    var sorted := Sorting.Sort(paths, Lower);
    sorted := Sorting.Sort(sorted, Earlier);
    var m := Ok(Merged(acc, []));
    for i := 0 to |sorted|
      invariant m == ApplyAll(Merged(acc, []), sorted[..i], granularity)
    {
      ApplyOneMore(Merged(acc, []), sorted, i, granularity);
      m := if m.Panic? then Panic else ApplyPath(m.value, sorted[i], granularity);
    }
    assert sorted[..|sorted|] == sorted;
    r := if m.Panic? then Panic else Ok(m.value.(changes := Sorting.Dedup(Sorting.Sort(m.value.changes, LocationLess))));
  }

  //
  // What the paths mean
  //

  /** What the code demands of a path: at least a leaf key and a leaf value, keys
      that are keys, and a leaf that can be converted if it is written. */
  predicate Clean(u: Update) {
    && |u.path| >= 2 && ParseKeys(u.path[..|u.path| - 1]).Ok?
    && (Writes(u) ==> ToJson(u.path[|u.path| - 1]).Ok?)
  }

  /** A positive update writes its leaf, any other removes it; but a path of two
      elements is always written. */
  predicate Writes(u: Update) { u.diff > 0 || |u.path| == 2 }

  function LocationOf(u: Update): (loc: Location)
    requires Clean(u)
    ensures |loc| == |u.path| - 1
  {
    ParsedLength(u.path[..|u.path| - 1]);
    ParseKeys(u.path[..|u.path| - 1]).value
  }

  function Effect(u: Update): Option<Json>
    requires Clean(u)
  {
    if Writes(u) then Some(ToJson(u.path[|u.path| - 1]).value) else None
  }

  /** A location lists the keys of a path but for its leaf value, one by one. */
  lemma LocationIs(u: Update, i: nat)
    requires Clean(u) && i < |u.path| - 1
    ensures ParseKey(u.path[i]) == Ok(LocationOf(u)[i])
  {
    ParsedLength(u.path[..|u.path| - 1]);
  }

  /** What an update is for: a positive one writes its leaf, any other removes it.
      Its effect is that, except for retracted paths of two elements. */
  lemma EffectIs(u: Update)
    requires Clean(u)
    ensures u.diff > 0 ==> ToJson(u.path[|u.path| - 1]).Ok? && Effect(u) == Some(ToJson(u.path[|u.path| - 1]).value)
    ensures u.diff <= 0 && |u.path| > 2 ==> Effect(u) == None
    ensures u.diff <= 0 && |u.path| == 2 ==> ToJson(u.path[1]).Ok? && Effect(u) == Some(ToJson(u.path[1]).value)
  {
  }

  lemma {:induction false} ParsedLength(vs: seq<Value>)
    ensures ParseKeys(vs).Ok? ==> |ParseKeys(vs).value| == |vs|
    ensures ParseKeys(vs).Ok? ==> forall i :: 0 <= i < |vs| ==> ParseKey(vs[i]) == Ok(ParseKeys(vs).value[i])
  {
    if vs != [] { ParsedLength(vs[..|vs| - 1]); }
  }

  lemma {:induction false} ParsedPrefix(vs: seq<Value>, k: nat)
    requires ParseKeys(vs).Ok? && k <= |vs|
    ensures |ParseKeys(vs).value| == |vs| && ParseKeys(vs[..k]) == Ok(ParseKeys(vs).value[..k])
  {
    ParsedLength(vs);
    if k == |vs| {
      assert vs[..k] == vs && ParseKeys(vs).value[..k] == ParseKeys(vs).value;
    } else {
      var front := vs[..|vs| - 1];
      ParsedPrefix(front, k);
      assert front[..k] == vs[..k];
      assert ParseKeys(vs).value[..|vs| - 1] == ParseKeys(front).value;
      assert ParseKeys(vs).value[..k] == ParseKeys(front).value[..k];
    }
  }

  lemma {:induction false} DescendIsPut(entries: Entries, keys: seq<Value>, loc: Location, leaf: Value, diff: int)
    requires |loc| == |keys| + 1 && forall i :: 0 <= i < |keys| ==> ParseKey(keys[i]) == Ok(loc[i])
    requires diff > 0 ==> ToJson(leaf).Ok?
    ensures Descend(entries, keys, loc[|keys|], leaf, diff) == Ok(Put(entries, loc, if diff > 0 then Some(ToJson(leaf).value) else None))
    decreases |keys|
  {
    if keys != [] {
      var child := Child(entries, loc[0]);
      if child.Object? { DescendIsPut(child.entries, keys[1..], loc[1..], leaf, diff); }
    }
  }

  /** The reported key of an update: its leaf key if there is no other, else the
      keys above the leaf, as far as the granularity goes. */
  function ChangeKey(u: Update, granularity: nat): Location
    requires Clean(u)
  {
    var n := if |u.path| == 2 then 1 else |u.path| - 2;
    LocationOf(u)[..if granularity < n then granularity else n]
  }

  /** A change key is the beginning of the location, as long as the granularity
      asks for; the leaf key is part of it only if there is no other. */
  lemma ChangeKeyIs(u: Update, granularity: nat)
    requires Clean(u)
    ensures ChangeKey(u, granularity) <= LocationOf(u)
    ensures |u.path| == 2 ==> |ChangeKey(u, granularity)| == if granularity == 0 then 0 else 1
    ensures |u.path| > 2 ==> |ChangeKey(u, granularity)| == if granularity <= |u.path| - 2 then granularity else |u.path| - 2
  {
  }

  lemma ApplyShortIsPut(m: Merged, u: Update, granularity: nat)
    requires Clean(u) && |u.path| == 2
    ensures ApplyPath(m, u, granularity) == Ok(Merged(Put(m.acc, LocationOf(u), Effect(u)), m.changes + [ChangeKey(u, granularity)]))
  {
    var keys, loc := u.path[..1], LocationOf(u);
    ParsedLength(keys);
    assert ParseKey(u.path[0]) == Ok(loc[0]);
    assert ChangeKey(u, granularity) == if 0 < granularity then [loc[0]] else [];
  }

  lemma ApplyLongIsPut(m: Merged, u: Update, granularity: nat)
    requires Clean(u) && |u.path| > 2
    ensures ApplyPath(m, u, granularity) == Ok(Merged(Put(m.acc, LocationOf(u), Effect(u)), m.changes + [ChangeKey(u, granularity)]))
  {
    var n, loc := |u.path|, LocationOf(u);
    var keys := u.path[..n - 1];
    ParsedLength(keys);
    assert keys[..n - 2] == u.path[..n - 2];
    DescendIsPut(m.acc, u.path[..n - 2], loc, u.path[n - 1], u.diff);
    var g := if granularity < n - 2 then granularity else n - 2;
    ParsedPrefix(keys, g);
    assert Reported(u.path[..n - 2], granularity) == keys[..g];
  }

  /** Applying a path is one write and one change key. */
  lemma ApplyIsPut(m: Merged, u: Update, granularity: nat)
    requires Clean(u)
    ensures ApplyPath(m, u, granularity) == Ok(Merged(Put(m.acc, LocationOf(u), Effect(u)), m.changes + [ChangeKey(u, granularity)]))
  {
    if |u.path| == 2 { ApplyShortIsPut(m, u, granularity); } else { ApplyLongIsPut(m, u, granularity); }
  }

  lemma {:induction false} DescendEmptyIff(keys: seq<Value>, leafKey: string, leaf: Value, diff: int)
    ensures Descend(map[], keys, leafKey, leaf, diff).Ok? <==> ParseKeys(keys).Ok? && (diff > 0 ==> ToJson(leaf).Ok?)
    decreases |keys|
  {
    ParsesIffAll(keys);
    if keys != [] {
      DescendEmptyIff(keys[1..], leafKey, leaf, diff);
      ParsesIffAll(keys[1..]);
      assert (forall i :: 0 <= i < |keys| ==> ParseKey(keys[i]).Ok?) <==>
        ParseKey(keys[0]).Ok? && forall i :: 0 <= i < |keys[1..]| ==> ParseKey(keys[1..][i]).Ok? by {
        if ParseKey(keys[0]).Ok? && forall i :: 0 <= i < |keys[1..]| ==> ParseKey(keys[1..][i]).Ok? {
          forall i | 0 <= i < |keys| ensures ParseKey(keys[i]).Ok? { assert i > 0 ==> keys[i] == keys[1..][i - 1]; }
        }
      }
    }
  }

  lemma {:induction false} ParsesIffAll(vs: seq<Value>)
    ensures ParseKeys(vs).Ok? <==> forall i :: 0 <= i < |vs| ==> ParseKey(vs[i]).Ok?
  {
    if vs != [] {
      var front := vs[..|vs| - 1];
      ParsesIffAll(front);
      assert forall i :: 0 <= i < |front| ==> front[i] == vs[i];
    }
  }

  /** A path is clean exactly if writing it into an empty map does not panic. */
  lemma CleanIff(u: Update, granularity: nat)
    ensures Clean(u) <==> ApplyPath(Merged(map[], []), u, granularity).Ok?
  {
    var n := |u.path|;
    if Clean(u) {
      ApplyIsPut(Merged(map[], []), u, granularity);
    } else if n > 2 {
      CleanLong(u);
      if ParseKey(u.path[n - 2]).Ok? { DescendEmptyIff(u.path[..n - 2], ParseKey(u.path[n - 2]).value, u.path[n - 1], u.diff); }
    } else if n == 2 {
      assert u.path[..1] == [u.path[0]] && [u.path[0]][..0] == [];
      assert ParseKeys([u.path[0]]).Ok? <==> ParseKey(u.path[0]).Ok?;
    }
  }

  lemma CleanLong(u: Update)
    requires |u.path| > 2
    ensures var n := |u.path|;
      Clean(u) <==> ParseKeys(u.path[..n - 2]).Ok? && ParseKey(u.path[n - 2]).Ok? && (u.diff > 0 ==> ToJson(u.path[n - 1]).Ok?)
  {
    var keys := u.path[..|u.path| - 1];
    assert keys[..|keys| - 1] == u.path[..|u.path| - 2];
  }

  function PutAll(acc: Entries, us: seq<Update>): Entries
    requires AllClean(us)
  {
    if us == [] then acc
    else
      var u := us[|us| - 1];
      Put(PutAll(acc, us[..|us| - 1]), LocationOf(u), Effect(u))
  }

  function ChangeKeys(us: seq<Update>, granularity: nat): seq<Location>
    requires AllClean(us)
  {
    seq(|us|, i requires 0 <= i < |us| => ChangeKey(us[i], granularity))
  }

  predicate AllClean(us: seq<Update>) {
    forall i :: 0 <= i < |us| ==> Clean(us[i])
  }

  lemma ChangeKeysGrow(changes: seq<Location>, us: seq<Update>, granularity: nat)
    requires AllClean(us) && us != []
    ensures changes + ChangeKeys(us[..|us| - 1], granularity) + [ChangeKey(us[|us| - 1], granularity)] == changes + ChangeKeys(us, granularity)
  {
  }

  lemma {:induction false} ApplyAllIsPutAll(m: Merged, us: seq<Update>, granularity: nat)
    requires AllClean(us)
    ensures ApplyAll(m, us, granularity) == Ok(Merged(PutAll(m.acc, us), m.changes + ChangeKeys(us, granularity)))
  {
    if us == [] {
      assert m.changes + ChangeKeys(us, granularity) == m.changes;
    } else {
      var front, u := us[..|us| - 1], us[|us| - 1];
      ApplyAllIsPutAll(m, front, granularity);
      ApplyIsPut(ApplyAll(m, front, granularity).value, u, granularity);
      ChangeKeysGrow(m.changes, us, granularity);
    }
  }

  //
  // Locations hold their last update
  //

  /** No location is a part of another. */
  ghost predicate PrefixFree(us: seq<Update>)
    requires AllClean(us)
  {
    forall i, j :: 0 <= i < |us| && 0 <= j < |us| && LocationOf(us[i]) <= LocationOf(us[j]) ==> LocationOf(us[i]) == LocationOf(us[j])
  }

  ghost predicate AllOpen(acc: Entries, us: seq<Update>)
    requires AllClean(us)
  {
    forall i :: 0 <= i < |us| ==> Open(acc, LocationOf(us[i]))
  }

  /** The last update of a location, if any. */
  function LastAt(us: seq<Update>, loc: Location): (r: Option<Update>)
    requires AllClean(us)
    ensures r.Some? ==> Clean(r.value)
  {
    if us == [] then None
    else if LocationOf(us[|us| - 1]) == loc then Some(us[|us| - 1])
    else LastAt(us[..|us| - 1], loc)
  }

  lemma {:induction false} PutAllHoldsLast(acc: Entries, us: seq<Update>, loc: Location)
    requires AllClean(us) && loc != [] && Open(acc, loc)
    requires forall i :: 0 <= i < |us| ==> LocationOf(us[i]) == loc || Unrelated(LocationOf(us[i]), loc)
    ensures Open(PutAll(acc, us), loc)
    ensures Get(PutAll(acc, us), loc) == match LastAt(us, loc) case Some(u) => Effect(u) case None => Get(acc, loc)
  {
    if us != [] {
      var front, u := us[..|us| - 1], us[|us| - 1];
      PutAllHoldsLast(acc, front, loc);
      if LocationOf(u) == loc {
        GetPut(PutAll(acc, front), loc, Effect(u));
      } else {
        GetPutOther(PutAll(acc, front), LocationOf(u), Effect(u), loc);
      }
    }
  }

  lemma {:induction false} PutAllKeepsOthers(acc: Entries, us: seq<Update>, loc: Location)
    requires AllClean(us) && loc != []
    requires forall i :: 0 <= i < |us| ==> Unrelated(LocationOf(us[i]), loc)
    ensures Get(PutAll(acc, us), loc) == Get(acc, loc)
  {
    if us != [] {
      var front, u := us[..|us| - 1], us[|us| - 1];
      PutAllKeepsOthers(acc, front, loc);
      GetPutOther(PutAll(acc, front), LocationOf(u), Effect(u), loc);
    }
  }

  lemma NotAbove(a: Location, loc: Location, key: Location)
    requires key <= loc && |key| < |loc| && (a <= loc ==> a == loc)
    ensures !(a <= key)
  {
    assert a <= key ==> a <= loc;
  }

  /** A write keeps walkable what another update has reported. */
  lemma WriteKeepsWalkable(entries: Entries, u: Update, w: Update, granularity: nat)
    requires Clean(u) && Clean(w) && (LocationOf(w) <= LocationOf(u) ==> LocationOf(w) == LocationOf(u))
    requires Walkable(entries, ChangeKey(u, granularity))
    ensures Walkable(Put(entries, LocationOf(w), Effect(w)), ChangeKey(u, granularity))
  {
    var key := ChangeKey(u, granularity);
    if |u.path| > 2 {
      NotAbove(LocationOf(w), LocationOf(u), key);
      PutKeepsWalkable(entries, LocationOf(w), Effect(w), key);
    } else if LocationOf(w) == LocationOf(u) {
      assert |w.path| == 2 && Effect(w).Some?;
      assert key == LocationOf(u);
    } else {
      PutKeepsWalkable(entries, LocationOf(w), Effect(w), key);
    }
  }

  lemma WriteIsWalkable(entries: Entries, u: Update, granularity: nat)
    requires Clean(u) && granularity > 0
    ensures Walkable(Put(entries, LocationOf(u), Effect(u)), ChangeKey(u, granularity))
  {
    if |u.path| > 2 {
      PutWalkable(entries, LocationOf(u), Effect(u), ChangeKey(u, granularity));
    } else {
      assert ChangeKey(u, granularity) == LocationOf(u);
    }
  }

  lemma {:induction false} PutAllWalkable(acc: Entries, us: seq<Update>, i: nat, granularity: nat)
    requires AllClean(us) && PrefixFree(us) && i < |us| && granularity > 0
    ensures Walkable(PutAll(acc, us), ChangeKey(us[i], granularity))
  {
    var front, u := us[..|us| - 1], us[|us| - 1];
    if i == |us| - 1 {
      WriteIsWalkable(PutAll(acc, front), u, granularity);
    } else {
      PutAllWalkable(acc, front, i, granularity);
      assert front[i] == us[i];
      WriteKeepsWalkable(PutAll(acc, front), us[i], us[|us| - 1], granularity);
    }
  }

  //
  // The order of updates
  //

  /** Later in time, or at the same time with a larger diff. */
  predicate After(a: Update, b: Update) {
    b.time < a.time || (a.time == b.time && b.diff < a.diff)
  }

  predicate Unconstrained(a: Update, b: Update) { true }
  predicate NotHigher(a: Update, b: Update) { a.diff <= b.diff }

  /** The two sorts together order by time, then by diff. */
  lemma InOrderIsOrdered(us: seq<Update>)
    ensures forall i, j :: 0 <= i < j < |InOrder(us)| ==> !After(InOrder(us)[i], InOrder(us)[j])
    ensures forall u: Update :: u in InOrder(us) <==> u in us
  {
    var byDiff := Sorting.Sort(us, Lower);
    Sorting.SortIsStable(us, Lower, Unconstrained);
    forall i, j | 0 <= i < j < |byDiff| ensures NotHigher(byDiff[i], byDiff[j]) {
      assert Sorting.Behind(Lower, Unconstrained, byDiff[i], byDiff[j]);
    }
    Sorting.SortIsStable(byDiff, Earlier, NotHigher);
    var r := InOrder(us);
    forall i, j | 0 <= i < j < |r| ensures !After(r[i], r[j]) {
      assert Sorting.Behind(Earlier, NotHigher, r[i], r[j]);
    }
    Sorting.SortPermutes(us, Lower);
    Sorting.SortPermutes(byDiff, Earlier);
    forall u: Update ensures u in r <==> u in us { assert u in r <==> u in multiset(r); }
  }

  /** `u` is an update of `loc` such that no other one comes after it. */
  ghost predicate Latest(us: seq<Update>, loc: Location, u: Update)
    requires AllClean(us)
  {
    u in us && LocationOf(u) == loc && forall w :: w in us && LocationOf(w) == loc ==> !After(w, u)
  }

  lemma {:induction false} LastAtIs(us: seq<Update>, loc: Location)
    requires AllClean(us) && forall i, j :: 0 <= i < j < |us| ==> !After(us[i], us[j])
    ensures LastAt(us, loc).Some? ==> Latest(us, loc, LastAt(us, loc).value)
    ensures LastAt(us, loc).None? ==> forall w :: w in us ==> LocationOf(w) != loc
  {
    if us != [] {
      var front, last := us[..|us| - 1], us[|us| - 1];
      LastAtIs(front, loc);
      assert us == front + [last];
    }
  }

  //
  // Merging
  //

  ghost predicate Misses(us: seq<Update>, loc: Location)
    requires AllClean(us)
  {
    forall i :: 0 <= i < |us| ==> Unrelated(LocationOf(us[i]), loc)
  }

  ghost predicate HoldsLatest(acc: Entries, us: seq<Update>, loc: Location)
    requires AllClean(us) && loc != []
  {
    exists u :: Latest(us, loc, u) && Get(acc, loc) == Effect(u)
  }

  /** Every updated location holds the effect of its latest update, and unrelated
      locations are untouched. */
  ghost predicate Exact(before: Entries, us: seq<Update>, after: Entries)
    requires AllClean(us)
  {
    && (forall i :: 0 <= i < |us| ==> HoldsLatest(after, us, LocationOf(us[i])))
    && (forall loc :: loc != [] && Misses(us, loc) ==> Get(after, loc) == Get(before, loc))
  }

  /** The keys of all updates are reported, in order and each once. */
  ghost predicate Reports(us: seq<Update>, granularity: nat, changes: seq<Location>)
    requires AllClean(us)
  {
    && (forall i, j :: 0 <= i < j < |changes| ==> LocationLess(changes[i], changes[j]))
    && (forall key :: key in changes <==> key in ChangeKeys(us, granularity))
  }

  function MergedInto(acc: Entries, us: seq<Update>, granularity: nat): Outcome<Merged> {
    match ApplyAll(Merged(acc, []), InOrder(us), granularity)
    case Panic => Panic
    case Ok(m) => Ok(m.(changes := Sorting.Dedup(Sorting.Sort(m.changes, LocationLess))))
  }

  /** Only the order differs. */
  ghost predicate SameUpdates(us: seq<Update>, ws: seq<Update>) {
    forall u: Update :: u in ws <==> u in us
  }

  lemma SameHypotheses(us: seq<Update>, ws: seq<Update>)
    requires AllClean(us) && PrefixFree(us) && SameUpdates(us, ws)
    ensures AllClean(ws) && PrefixFree(ws)
  {
    forall i | 0 <= i < |ws| ensures Clean(ws[i]) { assert ws[i] in ws; }
    forall i, j | 0 <= i < |ws| && 0 <= j < |ws| && LocationOf(ws[i]) <= LocationOf(ws[j])
      ensures LocationOf(ws[i]) == LocationOf(ws[j])
    {
      assert ws[i] in ws && ws[j] in ws;
      var k, l :| 0 <= k < |us| && 0 <= l < |us| && us[k] == ws[i] && us[l] == ws[j];
    }
  }

  lemma PutAllIsExact(acc: Entries, us: seq<Update>, ws: seq<Update>)
    requires AllClean(us) && PrefixFree(us) && AllOpen(acc, us) && SameUpdates(us, ws)
    requires AllClean(ws) && forall i, j :: 0 <= i < j < |ws| ==> !After(ws[i], ws[j])
    ensures Exact(acc, us, PutAll(acc, ws))
  {
    forall i | 0 <= i < |us| ensures HoldsLatest(PutAll(acc, ws), us, LocationOf(us[i])) {
      var loc := LocationOf(us[i]);
      assert us[i] in us;
      forall j | 0 <= j < |ws| ensures LocationOf(ws[j]) == loc || Unrelated(LocationOf(ws[j]), loc) {
        assert ws[j] in ws;
        var k :| 0 <= k < |us| && us[k] == ws[j];
      }
      PutAllHoldsLast(acc, ws, loc);
      LastAtIs(ws, loc);
      assert Latest(us, loc, LastAt(ws, loc).value);
    }
    forall loc | loc != [] && Misses(us, loc) ensures Get(PutAll(acc, ws), loc) == Get(acc, loc) {
      forall j | 0 <= j < |ws| ensures Unrelated(LocationOf(ws[j]), loc) {
        assert ws[j] in ws;
        var k :| 0 <= k < |us| && us[k] == ws[j];
      }
      PutAllKeepsOthers(acc, ws, loc);
    }
  }

  lemma ChangesAreReported(us: seq<Update>, ws: seq<Update>, granularity: nat)
    requires AllClean(us) && AllClean(ws) && SameUpdates(us, ws)
    ensures Reports(us, granularity, Sorting.Dedup(Sorting.Sort(ChangeKeys(ws, granularity), LocationLess)))
  {
    var keys := ChangeKeys(ws, granularity);
    LocationOrder();
    Sorting.SortedDedup(keys, LocationLess);
    forall key ensures key in keys <==> key in ChangeKeys(us, granularity) {
      if key in keys {
        var i :| 0 <= i < |ws| && key == ChangeKey(ws[i], granularity);
        assert ws[i] in ws;
        var k :| 0 <= k < |us| && us[k] == ws[i];
        assert ChangeKeys(us, granularity)[k] == key;
      }
      if key in ChangeKeys(us, granularity) {
        var i :| 0 <= i < |us| && key == ChangeKey(us[i], granularity);
        assert us[i] in us;
        var k :| 0 <= k < |ws| && ws[k] == us[i];
        assert keys[k] == key;
      }
    }
  }

  /** Merging clean, prefix-free paths into maps that do not obstruct them. */
  lemma MergeIsExact(acc: Entries, us: seq<Update>, granularity: nat)
    requires AllClean(us) && PrefixFree(us) && AllOpen(acc, us)
    ensures MergedInto(acc, us, granularity).Ok?
    ensures AllClean(InOrder(us)) && MergedInto(acc, us, granularity).value.acc == PutAll(acc, InOrder(us))
    ensures var m := MergedInto(acc, us, granularity).value;
      && Exact(acc, us, m.acc) && Reports(us, granularity, m.changes)
      && ((forall key :: key in m.changes ==> Walkable(m.acc, key)) <==> granularity > 0 || us == [])
  {
    var ws := InOrder(us);
    InOrderIsOrdered(us);
    SameHypotheses(us, ws);
    MergedIs(acc, us, granularity);
    PutAllIsExact(acc, us, ws);
    ChangesAreReported(us, ws, granularity);
    KeysWalkable(acc, us, ws, granularity, MergedInto(acc, us, granularity).value);
  }

  lemma MergedIs(acc: Entries, us: seq<Update>, granularity: nat)
    requires AllClean(InOrder(us))
    ensures MergedInto(acc, us, granularity) ==
      Ok(Merged(PutAll(acc, InOrder(us)), Sorting.Dedup(Sorting.Sort(ChangeKeys(InOrder(us), granularity), LocationLess))))
  {
    ApplyAllIsPutAll(Merged(acc, []), InOrder(us), granularity);
    assert [] + ChangeKeys(InOrder(us), granularity) == ChangeKeys(InOrder(us), granularity);
  }

  lemma KeysWalkable(acc: Entries, us: seq<Update>, ws: seq<Update>, granularity: nat, m: Merged)
    requires AllClean(us) && AllClean(ws) && PrefixFree(ws) && SameUpdates(us, ws)
    requires m.acc == PutAll(acc, ws) && Reports(us, granularity, m.changes)
    ensures (forall key :: key in m.changes ==> Walkable(m.acc, key)) <==> granularity > 0 || us == []
  {
    if granularity > 0 {
      forall key | key in m.changes ensures Walkable(m.acc, key) {
        var i :| 0 <= i < |us| && key == ChangeKey(us[i], granularity);
        assert us[i] in us;
        var k :| 0 <= k < |ws| && ws[k] == us[i];
        PutAllWalkable(acc, ws, k, granularity);
      }
    } else if us != [] {
      assert ChangeKeys(us, granularity)[0] == [];
      assert [] in m.changes && !Walkable(m.acc, []);
    }
  }

  lemma {:induction false} LocationLessTrichotomy(a: Location, b: Location)
    ensures a == b ==> !LocationLess(a, b)
    ensures a != b ==> LocationLess(a, b) != LocationLess(b, a)
  {
    if a != [] && b != [] {
      StringLessTrichotomy(a[0], b[0]);
      LocationLessTrichotomy(a[1..], b[1..]);
      assert a == [a[0]] + a[1..] && b == [b[0]] + b[1..];
    }
  }

  lemma {:induction false} LocationLessTransitive(a: Location, b: Location, c: Location)
    requires LocationLess(a, b) && LocationLess(b, c)
    ensures LocationLess(a, c)
  {
    if a != [] {
      if a[0] == b[0] && b[0] == c[0] {
        if !StringLess(a[0], a[0]) { LocationLessTransitive(a[1..], b[1..], c[1..]); }
      } else if a[0] != b[0] && b[0] != c[0] {
        StringLessTransitive(a[0], b[0], c[0]);
      }
    }
  }

  /** Change keys are sorted like vectors of strings: a proper beginning comes
      first, and otherwise the first key that differs decides. */
  lemma {:induction false} LocationLessIs(a: Location, b: Location, k: nat)
    ensures a <= b && a != b ==> LocationLess(a, b) && !LocationLess(b, a)
    ensures k < |a| && k < |b| && a[..k] == b[..k] && a[k] != b[k] ==> (LocationLess(a, b) <==> StringLess(a[k], b[k]))
    decreases |a|
  {
    LocationLessTrichotomy(a, b);
    if a != [] && b != [] {
      LocationLessIs(a[1..], b[1..], if k == 0 then 0 else k - 1);
      StringLessTrichotomy(a[0], b[0]);
      assert a == [a[0]] + a[1..] && b == [b[0]] + b[1..];
      if k > 0 && k < |a| && k < |b| && a[..k] == b[..k] {
        assert a[..k][0] == a[0] && b[..k][0] == b[0];
        assert a[1..][..k - 1] == a[..k][1..] && b[1..][..k - 1] == b[..k][1..];
      }
      if a <= b { assert a[1..] == b[1..][..|a| - 1]; }
    }
  }

  lemma LocationOrder()
    ensures Sorting.StrictOrder(LocationLess) && Sorting.Total(LocationLess)
  {
    forall a, b ensures a == b || LocationLess(a, b) || LocationLess(b, a) ensures LocationLess(a, b) ==> !LocationLess(b, a) {
      LocationLessTrichotomy(a, b);
    }
    forall a, b, c | LocationLess(a, b) && LocationLess(b, c) ensures LocationLess(a, c) { LocationLessTransitive(a, b, c); }
    Sorting.TotalIsStrict(LocationLess);
  }

  /** A path of two elements is written whatever its diff: it has the effect of
      an update exactly if it is positive. */
  lemma TwoElementsMeantIff(m: Merged, u: Update, key: string, j: Json, granularity: nat)
    requires |u.path| == 2 && ParseKey(u.path[0]) == Ok(key) && ToJson(u.path[1]) == Ok(j)
    ensures ApplyPath(m, u, granularity).Ok?
    ensures Get(ApplyPath(m, u, granularity).value.acc, [key]) == (if u.diff > 0 then Some(j) else None) <==> u.diff > 0
  {
  }

  /** Updates of these locations only. */
  ghost predicate Fit(us: seq<Update>, locations: set<Location>) {
    AllClean(us) && forall u :: u in us ==> LocationOf(u) in locations
  }

  ghost predicate AreSnapshots(states: Entries, changes: seq<Location>, out: seq<Json>) {
    |out| == |changes| && forall i :: 0 <= i < |changes| ==> Walkable(states, changes[i]) && out[i] == Snapshot(states, changes[i])
  }

  /** A batch is merged exactly, its changes are reported with their snapshots,
      and only a granularity of 0 makes the sink fail. */
  ghost predicate Delivered(before: Entries, us: seq<Update>, granularity: nat, after: Entries, changes: seq<Location>, out: Outcome<seq<Json>>)
    requires AllClean(us)
  {
    && Exact(before, us, after) && Reports(us, granularity, changes)
    && (out.Panic? <==> granularity == 0 && us != [])
    && (out.Ok? ==> AreSnapshots(after, changes, out.value))
  }

  method MergeAndReport(states: Entries, us: seq<Update>, granularity: nat, ghost locations: set<Location>)
    returns (after: Entries, changes: seq<Location>, out: Outcome<seq<Json>>)
    requires Fit(us, locations) && AllUnrelated(locations) && Unobstructed(states, locations)
    ensures Unobstructed(after, locations) && Delivered(states, us, granularity, after, changes, out)
  {
    FitMerges(states, us, granularity, locations);
    var r := MergePaths(states, us, granularity);
    after, changes := r.value.acc, r.value.changes;
    out := Snapshots(after, changes);
  }

  /** The sink with history: pending paths per time, and the nested state. */
  class AssocIn {
    const granularity: nat
    var pending: map<nat, seq<Update>>
    var states: Entries
    /** All locations that are ever updated; none is a part of another. */
    ghost const locations: set<Location>

    ghost predicate Valid()
      reads this
    {
      && AllUnrelated(locations) && Unobstructed(states, locations)
      && (forall t :: t in pending ==> Fit(pending[t], locations))
    }

    constructor (granularity: nat, ghost locations: set<Location>)
      requires AllUnrelated(locations) && [] !in locations
      ensures Valid() && states == map[] && pending == map[] && this.granularity == granularity && this.locations == locations
    {
      this.granularity, this.locations := granularity, locations;
      pending, states := map[], map[];
      forall loc | loc in locations ensures Open(map[], loc) { OpenEmpty(loc); }
    }

    /** Keeps paths until their time is complete. */
    method Receive(time: nat, data: seq<Update>)
      requires Valid() && Fit(data, locations)
      modifies this`pending
      ensures Valid()
      ensures pending == old(pending)[time := (if time in old(pending) then old(pending)[time] else []) + data]
    {
      pending := pending[time := (if time in pending then pending[time] else []) + data];
    }

    /** Merges the paths of a completed time and gives a snapshot per change.
        With a positive granularity the sink never fails. */
    method Notify(time: nat) returns (changes: seq<Location>, out: Outcome<seq<Json>>)
      requires Valid()
      modifies this`pending, this`states
      ensures Valid() && pending == old(pending) - {time}
      ensures time !in old(pending) ==> states == old(states) && out == Ok([])
      ensures time in old(pending) ==> Delivered(old(states), old(pending)[time], granularity, states, changes, out)
    {
      changes, out := [], Ok([]);
      if time in pending {
        var us := pending[time];
        pending := pending - {time};
        states, changes, out := MergeAndReport(states, us, granularity, locations);
      }
    }
  }

  ghost predicate Unobstructed(states: Entries, locations: set<Location>) {
    forall loc :: loc in locations ==> loc != [] && Open(states, loc)
  }

  ghost predicate AllUnrelated(locations: set<Location>) {
    forall a, b :: a in locations && b in locations && a <= b ==> a == b
  }

  /** Locations that updates fit stay open. */
  lemma FitsStayOpen(states: Entries, us: seq<Update>, locations: set<Location>)
    requires Fit(us, locations) && AllUnrelated(locations) && Unobstructed(states, locations)
    ensures Unobstructed(PutAll(states, us), locations)
  {
    forall loc | loc in locations ensures Open(PutAll(states, us), loc) { PutAllHoldsLast(states, us, loc); }
  }

  /** Merging updates of unobstructed locations succeeds, is exact, and obstructs
      none of them. */
  lemma FitMerges(states: Entries, us: seq<Update>, granularity: nat, locations: set<Location>)
    requires Fit(us, locations) && AllUnrelated(locations) && Unobstructed(states, locations)
    ensures MergedInto(states, us, granularity).Ok?
    ensures var m := MergedInto(states, us, granularity).value;
      && Exact(states, us, m.acc) && Reports(us, granularity, m.changes) && Unobstructed(m.acc, locations)
      && ((forall key :: key in m.changes ==> Walkable(m.acc, key)) <==> granularity > 0 || us == [])
  {
    FitIsFree(states, us, locations);
    InOrderIsOrdered(us);
    SameHypotheses(us, InOrder(us));
    FitsStayOpen(states, InOrder(us), locations);
    MergeIsExact(states, us, granularity);
  }

  lemma FitIsFree(states: Entries, us: seq<Update>, locations: set<Location>)
    requires Fit(us, locations) && AllUnrelated(locations) && Unobstructed(states, locations)
    ensures PrefixFree(us) && AllOpen(states, us)
  {
    forall i | 0 <= i < |us| ensures LocationOf(us[i]) in locations { assert us[i] in us; }
  }

  /** Walks to every changed key; an empty or missing key makes the sink panic. */
  method Snapshots(states: Entries, changes: seq<Location>) returns (out: Outcome<seq<Json>>)
    ensures out.Ok? <==> forall i :: 0 <= i < |changes| ==> Walkable(states, changes[i])
    ensures out.Ok? ==> AreSnapshots(states, changes, out.value)
  {
    var found: seq<Json> := [];
    for i := 0 to |changes|
      invariant |found| == i
      invariant forall k :: 0 <= k < i ==> Walkable(states, changes[k]) && found[k] == Snapshot(states, changes[k])
    {
      if !Walkable(states, changes[i]) { return Panic; }
      found := found + [Snapshot(states, changes[i])];
    }
    out := Ok(found);
  }
}
