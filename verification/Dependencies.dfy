/** Rules, and what a set of names needs prior to synthesis. */
module Dependencies {
  import opened Values
  import opened Plans
  import opened Bindings
  import Collections
  import Sorting

  datatype Rule = Rule(name: Aid, plan: Plan)

  /** Registered rules, by their names, and the known attributes. */
  datatype Catalogue = Catalogue(rules: map<Aid, Rule>, attributes: set<Aid>)
  {
    ghost predicate Valid() {
      forall name :: name in rules ==> rules[name].name == name
    }
  }

  /** The names a plan refers to. */
  function NamesIn(p: Plan): set<Aid> {
    match p
    case Project(_, inner) => NamesIn(inner)
    case Join(_, l, r) => NamesIn(l) + NamesIn(r)
    case NameExpr(_, name) => {name}
    case _ => {}
  }

  /** `q` occurs somewhere in `p`. */
  ghost predicate Occurs(q: Plan, p: Plan) {
    q == p || (p.Project? && Occurs(q, p.plan)) || (p.Join? && (Occurs(q, p.left) || Occurs(q, p.right)))
  }

  /** The names a plan refers to are those of the named expressions in it. */
  lemma {:induction false} NamesAreOccurrences(p: Plan, name: Aid)
    ensures name in NamesIn(p) <==> exists xs :: Occurs(NameExpr(xs, name), p)
    decreases p
  {
    match p
    case Project(_, inner) =>
      NamesAreOccurrences(inner, name);
      assert forall xs :: Occurs(NameExpr(xs, name), p) <==> Occurs(NameExpr(xs, name), inner);
    case Join(_, l, r) =>
      NamesAreOccurrences(l, name);
      NamesAreOccurrences(r, name);
      assert forall xs :: Occurs(NameExpr(xs, name), p) <==> Occurs(NameExpr(xs, name), l) || Occurs(NameExpr(xs, name), r);
    case NameExpr(xs, n) => assert Occurs(NameExpr(xs, n), p);
    case _ =>
  }

  /** The pattern matches on attribute `aid`. */
  predicate MatchesOn(q: Plan, aid: Aid) {
    (q.MatchA? || q.MatchEA? || q.MatchAV?) && q.aid == aid
  }

  /** The attributes a plan needs are those of the patterns in it. */
  lemma {:induction false} AttributesAreOccurrences(p: Plan, aid: Aid)
    ensures aid in AttributesIn(p) <==> exists q :: Occurs(q, p) && MatchesOn(q, aid)
    decreases p
  {
    match p
    case Project(_, inner) =>
      AttributesAreOccurrences(inner, aid);
      assert forall q :: MatchesOn(q, aid) ==> (Occurs(q, p) <==> Occurs(q, inner));
    case Join(_, l, r) =>
      AttributesAreOccurrences(l, aid);
      AttributesAreOccurrences(r, aid);
      assert forall q :: MatchesOn(q, aid) ==> (Occurs(q, p) <==> Occurs(q, l) || Occurs(q, r));
    case NameExpr(_, _) => assert forall q :: Occurs(q, p) ==> q == p;
    case _ =>
      assert forall q :: Occurs(q, p) ==> q == p;
      assert Occurs(p, p) && (MatchesOn(p, aid) <==> aid in AttributesIn(p));
  }

  //
  // Reachability
  //

  /** Every name is defined and refers to the next one. */
  ghost predicate IsChain(c: Catalogue, chain: seq<Aid>) {
    forall i :: 0 <= i < |chain| - 1 ==> RefersTo(c, chain[i], chain[i + 1])
  }

  ghost predicate RefersTo(c: Catalogue, a: Aid, b: Aid) {
    a in c.rules && b in NamesIn(c.rules[a].plan)
  }

  ghost predicate Reaches(c: Catalogue, names: seq<Aid>, chain: seq<Aid>, name: Aid) {
    chain != [] && chain[0] in names && chain[|chain| - 1] == name && IsChain(c, chain)
  }

  /** Some chain of references leads from the starting names to this one. */
  ghost predicate Reachable(c: Catalogue, names: seq<Aid>, name: Aid) {
    exists chain :: Reaches(c, names, chain, name)
  }

  lemma StartIsReachable(c: Catalogue, names: seq<Aid>, name: Aid)
    requires name in names
    ensures Reachable(c, names, name)
  {
    assert Reaches(c, names, [name], name);
  }

  lemma ReferenceIsReachable(c: Catalogue, names: seq<Aid>, a: Aid, b: Aid)
    requires Reachable(c, names, a) && RefersTo(c, a, b)
    ensures Reachable(c, names, b)
  {
    var chain :| Reaches(c, names, chain, a);
    assert Reaches(c, names, chain + [b], b);
  }

  /** Contains the starting names, and with a rule all that it refers to. */
  ghost predicate Closed(c: Catalogue, names: seq<Aid>, seen: set<Aid>) {
    && (forall name :: name in names ==> name in seen)
    && (forall a, b :: a in seen && RefersTo(c, a, b) ==> b in seen)
  }

  lemma {:induction false} ClosedHoldsChain(c: Catalogue, names: seq<Aid>, seen: set<Aid>, chain: seq<Aid>)
    requires Closed(c, names, seen) && chain != [] && chain[0] in names && IsChain(c, chain)
    ensures chain[|chain| - 1] in seen
  {
    var n := |chain| - 1;
    if n > 0 {
      ClosedHoldsChain(c, names, seen, chain[..n]);
      assert RefersTo(c, chain[n - 1], chain[n]);
    }
  }

  //
  // The worklist
  //

  datatype Collected = Rules(rules: seq<Rule>) | Unknown(what: Aid)

  /** A reachable rule is undefined, or a reachable rule needs an attribute that
      is unknown. */
  ghost predicate Missing(c: Catalogue, names: seq<Aid>, what: Aid) {
    || (Reachable(c, names, what) && what !in c.rules)
    || (what !in c.attributes && exists name :: Reachable(c, names, name) && Needs(c, name, what))
  }

  ghost predicate Needs(c: Catalogue, name: Aid, aid: Aid) {
    name in c.rules && aid in AttributesIn(c.rules[name].plan)
  }

  ghost predicate NamesDistinct(rules: seq<Rule>) {
    forall i, j :: 0 <= i < j < |rules| ==> rules[i].name != rules[j].name
  }

  ghost predicate Names(rules: seq<Rule>, seen: set<Aid>) {
    && (forall r :: r in rules ==> r.name in seen)
    && (forall name :: name in seen ==> exists r :: r in rules && r.name == name)
  }

  /** Rules taken from the catalogue, all of them reachable. */
  ghost predicate Found(c: Catalogue, names: seq<Aid>, rules: seq<Rule>) {
    forall r :: r in rules ==> r.name in c.rules && c.rules[r.name] == r && Reachable(c, names, r.name)
  }

  /** What finished rules refer to has been seen, and what they need exists. */
  ghost predicate Finished(c: Catalogue, rules: seq<Rule>, seen: set<Aid>) {
    forall r :: r in rules ==> NamesIn(r.plan) <= seen && AttributesIn(r.plan) <= c.attributes
  }

  /** Appends one rule under a new name. */
  lemma AppendRule(c: Catalogue, names: seq<Aid>, rules: seq<Rule>, seen: set<Aid>, name: Aid)
    requires c.Valid() && Found(c, names, rules) && Names(rules, seen)
    requires name in c.rules && Reachable(c, names, name)
    ensures Found(c, names, rules + [c.rules[name]]) && Names(rules + [c.rules[name]], seen + {name})
    ensures NamesDistinct(rules) && name !in seen ==> NamesDistinct(rules + [c.rules[name]])
  {
    var r := c.rules[name];
    forall x | x in seen + {name} ensures exists s :: s in rules + [r] && s.name == x {
      if x == name {
        assert r in rules + [r];
      } else {
        var s :| s in rules && s.name == x;
        assert s in rules + [r];
      }
    }
    forall i | 0 <= i < |rules| ensures rules[i].name in seen { assert rules[i] in rules; }
  }

  /** The rules enqueued so far: the starting ones first, all seen names, and no
      name twice unless a starting name was given twice. */
  ghost predicate Enqueued(c: Catalogue, names: seq<Aid>, all: seq<Rule>, seen: set<Aid>) {
    && Found(c, names, all) && Names(all, seen)
    && |names| <= |all| && (forall i :: 0 <= i < |names| ==> all[i].name == names[i])
    && (Collections.Distinct(names) ==> NamesDistinct(all))
  }

  lemma EnqueueLast(c: Catalogue, names: seq<Aid>, all: seq<Rule>, seen: set<Aid>, name: Aid)
    requires c.Valid() && Enqueued(c, names, all, seen)
    requires name in c.rules && name !in seen && Reachable(c, names, name)
    ensures Enqueued(c, names, all + [c.rules[name]], seen + {name})
  {
    AppendRule(c, names, all, seen, name);
  }

  lemma EnqueueOne(c: Catalogue, names: seq<Aid>, done: seq<Rule>, queue: seq<Rule>, seen: set<Aid>, name: Aid)
    requires c.Valid() && Enqueued(c, names, done + queue, seen)
    requires name in c.rules && name !in seen && Reachable(c, names, name)
    ensures Enqueued(c, names, done + (queue + [c.rules[name]]), seen + {name})
  {
    assert done + (queue + [c.rules[name]]) == done + queue + [c.rules[name]];
    EnqueueLast(c, names, done + queue, seen, name);
  }

  method EnqueueNames(c: Catalogue, wanted: set<Aid>, before: set<Aid>, start: seq<Rule>, ghost names: seq<Aid>, ghost done: seq<Rule>)
    returns (unknown: Option<Aid>, seen: set<Aid>, queue: seq<Rule>)
    requires c.Valid() && Enqueued(c, names, done + start, before)
    requires forall name :: name in wanted ==> Reachable(c, names, name)
    ensures unknown.Some? ==> unknown.value in wanted && unknown.value !in c.rules
    ensures unknown.None? ==> Enqueued(c, names, done + queue, seen) && before <= seen && wanted <= seen && (seen == before ==> queue == start)
  {
    seen, queue, unknown := before, start, None;
    var rest := wanted;
    while rest != {}
      invariant rest <= wanted && before <= seen && forall x :: x in wanted ==> x in rest || x in seen
      invariant Enqueued(c, names, done + queue, seen)
      invariant seen == before ==> queue == start
      decreases |rest|
    {
      var name :| name in rest;
      assert name in wanted;
      if name !in seen {
        if name !in c.rules { return Some(name), seen, queue; }
        EnqueueOne(c, names, done, queue, seen, name);
        seen, queue := seen + {name}, queue + [c.rules[name]];
      }
      rest := rest - {name};
    }
  }

  /** The rules of the first names are enqueued. */
  ghost predicate Started(c: Catalogue, names: seq<Aid>, queue: seq<Rule>, seen: set<Aid>, i: nat) {
    && Found(c, names, queue) && Names(queue, seen)
    && |queue| == i <= |names| && (forall k :: 0 <= k < i ==> queue[k].name == names[k])
  }

  lemma StartOneMore(c: Catalogue, names: seq<Aid>, queue: seq<Rule>, seen: set<Aid>, i: nat)
    requires c.Valid() && i < |names| && names[i] in c.rules && Started(c, names, queue, seen, i)
    ensures Started(c, names, queue + [c.rules[names[i]]], seen + {names[i]}, i + 1)
  {
    StartIsReachable(c, names, names[i]);
    AppendRule(c, names, queue, seen, names[i]);
  }

  lemma StartedIsEnqueued(c: Catalogue, names: seq<Aid>, queue: seq<Rule>, seen: set<Aid>)
    requires Started(c, names, queue, seen, |names|)
    ensures Enqueued(c, names, queue, seen)
  {
  }

  method StartQueue(c: Catalogue, names: seq<Aid>) returns (unknown: Option<Aid>, seen: set<Aid>, queue: seq<Rule>)
    requires c.Valid()
    ensures unknown.Some? ==> unknown.value in names && unknown.value !in c.rules
    ensures unknown.None? ==> Enqueued(c, names, queue, seen)
  {
    seen, queue, unknown := {}, [], None;
    for i := 0 to |names|
      invariant Started(c, names, queue, seen, i)
    {
      if names[i] !in c.rules { return Some(names[i]), seen, queue; }
      StartOneMore(c, names, queue, seen, i);
      seen, queue := seen + {names[i]}, queue + [c.rules[names[i]]];
    }
    StartedIsEnqueued(c, names, queue, seen);
  }

  method CheckAttributes(c: Catalogue, wanted: set<Aid>) returns (unknown: Option<Aid>)
    ensures unknown.Some? ==> unknown.value in wanted && unknown.value !in c.attributes
    ensures unknown.None? ==> wanted <= c.attributes
  {
    var rest := wanted;
    while rest != {}
      invariant rest <= wanted && wanted - rest <= c.attributes
      decreases |rest|
    {
      var aid :| aid in rest;
      if aid !in c.attributes { return Some(aid); }
      rest := rest - {aid};
    }
    unknown := None;
  }

  lemma SeenAreDefined(c: Catalogue, names: seq<Aid>, all: seq<Rule>, seen: set<Aid>)
    requires Enqueued(c, names, all, seen)
    ensures seen <= c.rules.Keys
  {
    forall name | name in seen ensures name in c.rules {
      var r :| r in all && r.name == name;
    }
  }

  lemma SizeGrows(a: set<Aid>, b: set<Aid>, all: set<Aid>)
    requires a <= b <= all
    ensures |b| <= |all| && |a| <= |b| && (|a| == |b| ==> a == b)
  {
    assert b == a + (b - a) && all == b + (all - b);
  }

  /** Once nothing waits, exactly the reachable rules were found, and nothing is
      missing. */
  lemma NothingMissing(c: Catalogue, names: seq<Aid>, all: seq<Rule>, seen: set<Aid>)
    requires Enqueued(c, names, all, seen) && Finished(c, all, seen)
    ensures forall name :: Reachable(c, names, name) ==> name in seen
    ensures !exists what :: Missing(c, names, what)
  {
    SeenAreDefined(c, names, all, seen);
    forall name | name in names ensures name in seen {
      var i :| 0 <= i < |names| && names[i] == name;
      assert all[i] in all;
    }
    forall a, b | a in seen && RefersTo(c, a, b) ensures b in seen {
      var r :| r in all && r.name == a;
    }
    forall name | Reachable(c, names, name) ensures name in seen {
      var chain :| Reaches(c, names, chain, name);
      ClosedHoldsChain(c, names, seen, chain);
    }
    forall what ensures !Missing(c, names, what) {
      forall name | Reachable(c, names, name) && Needs(c, name, what) ensures what in c.attributes {
        var r :| r in all && r.name == name;
      }
    }
  }

  ghost predicate Worklist(c: Catalogue, names: seq<Aid>, rules: seq<Rule>, queue: seq<Rule>, seen: set<Aid>) {
    Enqueued(c, names, rules + queue, seen) && Finished(c, rules, seen)
  }

  lemma NextRule(c: Catalogue, names: seq<Aid>, rules: seq<Rule>, queue: seq<Rule>, seen: set<Aid>)
    requires Worklist(c, names, rules, queue, seen) && queue != []
    ensures Enqueued(c, names, rules + [queue[0]] + queue[1..], seen)
    ensures queue[0].name in c.rules && c.rules[queue[0].name] == queue[0] && Reachable(c, names, queue[0].name)
    ensures forall name :: name in NamesIn(queue[0].plan) ==> Reachable(c, names, name)
  {
    var next := queue[0];
    assert rules + queue == rules + [next] + queue[1..];
    assert next in rules + queue;
    forall name | name in NamesIn(next.plan) ensures Reachable(c, names, name) {
      ReferenceIsReachable(c, names, next.name, name);
    }
  }

  /** Takes the next rule off the queue and enqueues what it refers to. */
  method Visit(c: Catalogue, rules: seq<Rule>, before: set<Aid>, start: seq<Rule>, ghost names: seq<Aid>)
    returns (unknown: Option<Aid>, seen: set<Aid>, queue: seq<Rule>)
    requires c.Valid() && start != [] && Worklist(c, names, rules, start, before)
    ensures unknown.Some? ==> Missing(c, names, unknown.value)
    ensures unknown.None? ==> Worklist(c, names, rules + [start[0]], queue, seen)
    ensures unknown.None? ==> before <= seen <= c.rules.Keys && (seen == before ==> |queue| < |start|)
  {
    var next := start[0];
    NextRule(c, names, rules, start, before);
    unknown, seen, queue := EnqueueNames(c, NamesIn(next.plan), before, start[1..], names, rules + [next]);
    if unknown.Some? { return; }
    unknown := CheckAttributes(c, AttributesIn(next.plan));
    if unknown.Some? {
      assert Needs(c, next.name, unknown.value);
      return;
    }
    FinishOne(c, rules, next, before, seen);
    SeenAreDefined(c, names, rules + [next] + queue, seen);
  }

  lemma FinishOne(c: Catalogue, rules: seq<Rule>, next: Rule, before: set<Aid>, seen: set<Aid>)
    requires Finished(c, rules, before) && before <= seen
    requires NamesIn(next.plan) <= seen && AttributesIn(next.plan) <= c.attributes
    ensures Finished(c, rules + [next], seen)
  {
  }

  /** Exactly the reachable rules, each once if the names are distinct, and all
      that they need is there. */
  ghost predicate Complete(c: Catalogue, names: seq<Aid>, rules: seq<Rule>) {
    && Found(c, names, rules)
    && (forall name :: Reachable(c, names, name) ==> exists rule :: rule in rules && rule.name == name)
    && (NamesDistinct(rules) <==> Collections.Distinct(names))
    && !exists what :: Missing(c, names, what)
  }

  lemma WorklistDone(c: Catalogue, names: seq<Aid>, rules: seq<Rule>, seen: set<Aid>)
    requires Worklist(c, names, rules, [], seen)
    ensures Complete(c, names, rules)
  {
    assert rules + [] == rules;
    NothingMissing(c, names, rules, seen);
    if NamesDistinct(rules) {
      forall i, j | 0 <= i < j < |names| ensures names[i] != names[j] { assert rules[i].name != rules[j].name; }
    }
  }

  /** Works off the queue. */
  method RunWorklist(c: Catalogue, start: seq<Rule>, before: set<Aid>, ghost names: seq<Aid>) returns (unknown: Option<Aid>, rules: seq<Rule>)
    requires c.Valid() && Worklist(c, names, [], start, before)
    ensures unknown.Some? ==> Missing(c, names, unknown.value)
    ensures unknown.None? ==> Complete(c, names, rules)
  {
    var queue, seen := start, before;
    rules := [];
    while queue != []
      invariant Worklist(c, names, rules, queue, seen)
      decreases |c.rules.Keys| - |seen|, |queue|
    {
      var next, last := queue[0], seen;
      unknown, seen, queue := Visit(c, rules, seen, queue, names);
      if unknown.Some? { return; }
      rules := rules + [next];
      SizeGrows(last, seen, c.rules.Keys);
    }
    WorklistDone(c, names, rules, seen);
    unknown := None;
  }

  /** Collects every rule reachable from the names, also through recursive rules.
      It fails exactly if a reachable rule or a required attribute is unknown. */
  method CollectDependencies(c: Catalogue, names: seq<Aid>) returns (r: Collected)
    requires c.Valid()
    ensures r.Unknown? ==> Missing(c, names, r.what)
    ensures r.Unknown? <==> exists what :: Missing(c, names, what)
    ensures r.Rules? ==> Complete(c, names, r.rules)
  {
    var unknown, seen, queue := StartQueue(c, names);
    if unknown.Some? {
      StartIsReachable(c, names, unknown.value);
      assert Missing(c, names, unknown.value);
      return Unknown(unknown.value);
    }
    assert [] + queue == queue;
    var rules;
    unknown, rules := RunWorklist(c, queue, seen, names);
    r := if unknown.Some? then Unknown(unknown.value) else Rules(rules);
  }

  //
  // The check for duplicates
  //

  predicate ByName(a: Rule, b: Rule) { StringLess(a.name, b.name) }
  predicate NamesDiffer(a: Rule, b: Rule) { a.name != b.name }

  lemma ByNameIsStrict()
    ensures Sorting.StrictOrder(ByName)
  {
    forall a: Rule, b: Rule ensures ByName(a, b) ==> !ByName(b, a) { StringLessTrichotomy(a.name, b.name); }
    forall a: Rule, b: Rule, c: Rule | !ByName(b, a) && !ByName(c, b) ensures !ByName(c, a) {
      StringLessTrichotomy(a.name, b.name);
      StringLessTrichotomy(b.name, c.name);
      StringLessTrichotomy(a.name, c.name);
      if a.name != b.name && b.name != c.name { StringLessTransitive(a.name, b.name, c.name); }
    }
  }

  /** Sorts rules by name and compares neighbours, all but the last two. */
  method FindDuplicate(rules: seq<Rule>) returns (found: bool)
    requires rules != []
    ensures found <==> var sorted := Sorting.Sort(rules, ByName); exists i :: 1 <= i < |sorted| - 1 && !NamesDiffer(sorted[i], sorted[i - 1])
    ensures NamesDistinct(rules) ==> !found
  {
    Sorting.SortPermutes(rules, ByName);
    var sorted := Sorting.Sort(rules, ByName);
    if NamesDistinct(rules) { SortKeepsDistinct(rules); }
    var i := 1;
    while i < |sorted| - 1
      invariant 1 <= i && forall k :: 1 <= k < i && k < |sorted| - 1 ==> NamesDiffer(sorted[k], sorted[k - 1])
    {
      if !NamesDiffer(sorted[i], sorted[i - 1]) { return true; }
      i := i + 1;
    }
    found := false;
  }

  lemma SortKeepsDistinct(rules: seq<Rule>)
    requires NamesDistinct(rules)
    ensures NamesDistinct(Sorting.Sort(rules, ByName))
  {
    ByNameIsStrict();
    Sorting.SortIsStable(rules, ByName, NamesDiffer);
    var sorted := Sorting.Sort(rules, ByName);
    forall i, j | 0 <= i < j < |sorted| ensures sorted[i].name != sorted[j].name {
      assert Sorting.Behind(ByName, NamesDiffer, sorted[i], sorted[j]);
      StringLessTrichotomy(sorted[i].name, sorted[j].name);
    }
  }

  /** Collecting the rules of one name for implementation: the check for
      duplicates that follows never fires. */
  method CollectForImplement(c: Catalogue, name: Aid) returns (r: Collected, duplicate: bool)
    requires c.Valid()
    ensures !duplicate && (r.Unknown? <==> exists what :: Missing(c, [name], what))
    ensures r.Rules? ==> r.rules != [] && NamesDistinct(r.rules) && Complete(c, [name], r.rules)
  {
    r := CollectDependencies(c, [name]);
    duplicate := false;
    if r.Rules? {
      StartIsReachable(c, [name], name);
      duplicate := FindDuplicate(r.rules);
    }
  }
}
