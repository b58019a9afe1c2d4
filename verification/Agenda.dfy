/** The agenda of one rule module: a doubly linked list of activations, and a
    second doubly linked list of salience groups that index it. */
module Agenda {
  import opened AgendaOrder
  import opened SalienceIndex

  class Rule {
    const complexity: int
    const hasDynamicSalience: bool
    var salience: int

    constructor (complexity: int, hasDynamicSalience: bool, salience: int) {
      this.complexity, this.hasDynamicSalience, this.salience := complexity, hasDynamicSalience, salience;
    }
  }

  const MAX_SALIENCE: int := 10000
  const MIN_SALIENCE: int := -10000

  /** What evaluating a rule's salience expression gave. */
  datatype Evaluated = EvaluationError | NotAnInteger | Integer(value: int)

  /** The salience a rule has after evaluation: errors and values out of range keep it. */
  function Evaluation(salience: int, dynamic: bool, evaluated: Evaluated): int {
    if dynamic && evaluated.Integer? && MIN_SALIENCE <= evaluated.value <= MAX_SALIENCE
    then evaluated.value
    else salience
  }

  /** A match of a rule's whole left-hand side; `marker` is its activation, if any. */
  class PartialMatch {
    const recency: seq<nat>
    const firstTag: FirstTag
    const activatesRule: bool
    var marker: Activation?

    constructor (recency: seq<nat>, firstTag: FirstTag, activatesRule: bool) {
      this.recency, this.firstTag, this.activatesRule, this.marker := recency, firstTag, activatesRule, null;
    }
  }

  class Activation {
    const rule: Rule
    const basis: PartialMatch
    const timetag: nat
    const randomID: int
    var salience: int
    var prev: Activation?
    var next: Activation?

    constructor (rule: Rule, basis: PartialMatch, timetag: nat, randomID: int, salience: int)
      ensures this.rule == rule && this.basis == basis && this.timetag == timetag
      ensures this.randomID == randomID && this.salience == salience
      ensures prev == null && next == null
    {
      this.rule, this.basis, this.timetag := rule, basis, timetag;
      this.randomID, this.salience := randomID, salience;
      this.prev, this.next := null, null;
    }

    function Key(): Key reads this`salience {
      AgendaOrder.Key(salience, timetag, rule.complexity, randomID, basis.recency, basis.firstTag)
    }
  }

  class SalienceGroup {
    const salience: int
    var first: Activation?
    var last: Activation?
    var next: SalienceGroup?
    var prev: SalienceGroup?

    constructor (salience: int, prev: SalienceGroup?, next: SalienceGroup?)
      ensures this.salience == salience && first == null && last == null
      ensures this.prev == prev && this.next == next
    {
      this.salience, this.first, this.last, this.prev, this.next := salience, null, null, prev, next;
    }
  }

  // ----- views of the two lists -----

  ghost predicate KeysMatch(s: seq<Activation>, keys: seq<Key>)
    reads s`salience
  {
    |keys| == |s| && forall i :: 0 <= i < |s| ==> keys[i] == s[i].Key()
  }

  ghost predicate RunsMatch(gs: seq<SalienceGroup>, runs: seq<Run<Activation?>>)
    reads gs`first, gs`last
  {
    && |runs| == |gs|
    && forall k :: 0 <= k < |gs| ==> runs[k] == Run(gs[k].salience, gs[k].first, gs[k].last)
  }

  /** `s` is a doubly linked list that starts at `head`. */
  ghost predicate Linked(head: Activation?, s: seq<Activation>)
    reads s`prev, s`next
  {
    && head == (if s == [] then null else s[0])
    && (forall i {:trigger s[i].prev} :: 0 <= i < |s| ==> s[i].prev == if i == 0 then null else s[i - 1])
    && (forall i {:trigger s[i].next} :: 0 <= i < |s| ==> s[i].next == if i + 1 == |s| then null else s[i + 1])
  }

  ghost predicate GroupsLinked(head: SalienceGroup?, gs: seq<SalienceGroup>)
    reads gs`prev, gs`next
  {
    && head == (if gs == [] then null else gs[0])
    && (forall k {:trigger gs[k].prev} :: 0 <= k < |gs| ==> gs[k].prev == if k == 0 then null else gs[k - 1])
    && (forall k {:trigger gs[k].next} :: 0 <= k < |gs| ==> gs[k].next == if k + 1 == |gs| then null else gs[k + 1])
  }

  lemma InsertDistinct<T>(s: seq<T>, p: nat, x: T)
    requires p <= |s| && Distinct(s) && x !in s
    ensures Distinct(Insert(s, p, x))
  {
  }

  lemma RemovedIsGone<T>(s: seq<T>, p: nat)
    requires p < |s| && Distinct(s)
    ensures s[p] !in Remove(s, p)
  {
  }

  lemma RemoveDistinct<T>(s: seq<T>, p: nat)
    requires p < |s| && Distinct(s)
    ensures Distinct(Remove(s, p))
  {
  }

  /** Links that already lead through `a` at position `p` of `s`. */
  lemma Spliced(head: Activation?, s: seq<Activation>, p: nat, a: Activation)
    requires p <= |s| && Distinct(s) && a !in s
    requires head == if p == 0 then a else s[0]
    requires a.prev == if p == 0 then null else s[p - 1]
    requires a.next == if p == |s| then null else s[p]
    requires forall i {:trigger s[i].prev} :: 0 <= i < |s| ==>
      s[i].prev == if i == p then a else if i == 0 then null else s[i - 1]
    requires forall i {:trigger s[i].next} :: 0 <= i < |s| ==>
      s[i].next == if i + 1 == p then a else if i + 1 == |s| then null else s[i + 1]
    ensures Linked(head, Insert(s, p, a))
  {
    InsertDistinct(s, p, a);
  }

  /** Links that already skip position `p` of `s`. */
  lemma Skipped(head: Activation?, s: seq<Activation>, p: nat)
    requires p < |s| && Distinct(s)
    requires head == if p > 0 then s[0] else if |s| == 1 then null else s[1]
    requires forall i {:trigger s[i].prev} :: 0 <= i < |s| && i != p && i != p + 1 ==>
      s[i].prev == if i == 0 then null else s[i - 1]
    requires p + 1 < |s| ==> s[p + 1].prev == if p == 0 then null else s[p - 1]
    requires forall i {:trigger s[i].next} :: 0 <= i < |s| && i != p && i + 1 != p ==>
      s[i].next == if i + 1 == |s| then null else s[i + 1]
    requires p > 0 ==> s[p - 1].next == if p + 1 == |s| then null else s[p + 1]
    ensures Linked(head, Remove(s, p))
  {
    RemoveDistinct(s, p);
  }

  lemma GroupsSpliced(head: SalienceGroup?, gs: seq<SalienceGroup>, k: nat, g: SalienceGroup)
    requires k <= |gs| && Distinct(gs) && g !in gs
    requires head == if k == 0 then g else gs[0]
    requires g.prev == if k == 0 then null else gs[k - 1]
    requires g.next == if k == |gs| then null else gs[k]
    requires forall l {:trigger gs[l].prev} :: 0 <= l < |gs| ==>
      gs[l].prev == if l == k then g else if l == 0 then null else gs[l - 1]
    requires forall l {:trigger gs[l].next} :: 0 <= l < |gs| ==>
      gs[l].next == if l + 1 == k then g else if l + 1 == |gs| then null else gs[l + 1]
    ensures GroupsLinked(head, Insert(gs, k, g))
  {
    InsertDistinct(gs, k, g);
  }

  lemma GroupsSkipped(head: SalienceGroup?, gs: seq<SalienceGroup>, k: nat)
    requires k < |gs| && Distinct(gs)
    requires head == if k > 0 then gs[0] else if |gs| == 1 then null else gs[1]
    requires forall l {:trigger gs[l].prev} :: 0 <= l < |gs| && l != k && l != k + 1 ==>
      gs[l].prev == if l == 0 then null else gs[l - 1]
    requires k + 1 < |gs| ==> gs[k + 1].prev == if k == 0 then null else gs[k - 1]
    requires forall l {:trigger gs[l].next} :: 0 <= l < |gs| && l != k && l + 1 != k ==>
      gs[l].next == if l + 1 == |gs| then null else gs[l + 1]
    requires k > 0 ==> gs[k - 1].next == if k + 1 == |gs| then null else gs[k + 1]
    ensures GroupsLinked(head, Remove(gs, k))
  {
    RemoveDistinct(gs, k);
  }

  /** Each activation of `s` is the marker of its basis, and each marker is an
      activation of `s` or of `others` for that match. */
  ghost predicate MarkersFor(matches: set<PartialMatch>, s: seq<Activation>, others: set<Activation>)
    reads matches`marker
  {
    && (forall i :: 0 <= i < |s| ==> s[i].basis in matches && s[i].basis.marker == s[i])
    && (forall m :: m in matches && m.marker != null ==>
          (m.marker in s || m.marker in others) && m.marker.basis == m)
  }

  lemma MarkersInsert(matches: set<PartialMatch>, s: seq<Activation>, others: set<Activation>, p: nat, a: Activation)
    requires p <= |s| && MarkersFor(matches, s, others + {a})
    requires a.basis in matches && a.basis.marker == a
    ensures MarkersFor(matches, Insert(s, p, a), others)
  {
    var t := Insert(s, p, a);
    forall m | m in matches && m.marker != null && m.marker !in others ensures m.marker in t {
      if m.marker == a {
        assert t[p] == a;
      } else {
        var i :| 0 <= i < |s| && s[i] == m.marker;
        assert t[if i < p then i else i + 1] == m.marker;
      }
    }
  }

  lemma MarkersRemove(matches: set<PartialMatch>, s: seq<Activation>, others: set<Activation>, p: nat)
    requires p < |s| && MarkersFor(matches, s, others)
    ensures MarkersFor(matches, Remove(s, p), others + {s[p]})
  {
    var t := Remove(s, p);
    forall m | m in matches && m.marker != null && m.marker !in others + {s[p]} ensures m.marker in t {
      var i :| 0 <= i < |s| && s[i] == m.marker;
      assert t[if i < p then i else i - 1] == m.marker;
    }
  }

  lemma MarkersPermute(matches: set<PartialMatch>, s: seq<Activation>, t: seq<Activation>, others: set<Activation>)
    requires MarkersFor(matches, s, others) && multiset(s) == multiset(t)
    ensures MarkersFor(matches, t, others)
  {
    forall i | 0 <= i < |t| ensures t[i].basis in matches && t[i].basis.marker == t[i] {
      assert t[i] in multiset(t) && t[i] in multiset(s);
    }
    forall a | a in s ensures a in t {
      assert a in multiset(s) && a in multiset(t);
    }
  }

  lemma TagsPermute(keys: seq<Key>, keys': seq<Key>, others: set<Activation>, next: nat)
    requires TagsFor(keys, others, next) && multiset(keys) == multiset(keys')
    ensures TagsFor(keys', others, next)
  {
    forall i | 0 <= i < |keys'| ensures keys'[i] in keys {
      assert keys'[i] in multiset(keys') && keys'[i] in multiset(keys);
    }
  }

  predicate HasOtherTag(a: Activation, timetag: nat) {
    a.timetag != timetag
  }

  /** The tags of a list and of other activations are below `next` and all different. */
  ghost predicate TagsFor(keys: seq<Key>, others: set<Activation>, next: nat) {
    && (forall i :: 0 <= i < |keys| ==> keys[i].timetag < next)
    && (forall a :: a in others ==> a.timetag < next)
    && (forall a, i {:trigger HasOtherTag(a, keys[i].timetag)} ::
          a in others && 0 <= i < |keys| ==> HasOtherTag(a, keys[i].timetag))
    && (forall a, b {:trigger HasOtherTag(a, b.timetag)} ::
          a in others && b in others && a != b ==> HasOtherTag(a, b.timetag))
  }

  lemma TagsInsert(keys: seq<Key>, others: set<Activation>, next: nat, p: nat, key: Key)
    requires p <= |keys| && TagsFor(keys, others, next) && key.timetag == next
    ensures TagsFor(Insert(keys, p, key), others, next + 1)
  {
  }

  /** An activation that moves from the list to the others keeps its tag. */
  lemma TagsRemove(s: seq<Activation>, keys: seq<Key>, others: set<Activation>, next: nat, p: nat)
    requires KeysMatch(s, keys) && DistinctTags(keys) && p < |s| && TagsFor(keys, others, next)
    ensures TagsFor(Remove(keys, p), others + {s[p]}, next)
  {
    var t := Remove(keys, p);
    forall a, i | a in others + {s[p]} && 0 <= i < |t| ensures HasOtherTag(a, t[i].timetag) {
      var j := if i < p then i else i + 1;
      if a in others {
        assert HasOtherTag(a, keys[j].timetag);
      } else {
        assert if j < p then TagsDiffer(keys[j], keys[p]) else TagsDiffer(keys[p], keys[j]);
      }
    }
    assert forall a :: a in others ==> HasOtherTag(a, keys[p].timetag);
  }

  /** The rules of some activations. */
  ghost function RulesOf(s: seq<Activation>): set<Rule> {
    set a | a in s :: a.rule
  }

  ghost predicate RulesHave(saliences: map<Rule, int>, rules: set<Rule>)
    reads rules`salience
  {
    saliences.Keys == rules && forall r :: r in rules ==> saliences[r] == r.salience
  }

  /** The salience of `rule` once the first `n` activations were evaluated in turn; `before` is what it
      was until then. */
  ghost function SalienceAfter(
      s: seq<Activation>, n: nat, rule: Rule, evaluated: nat -> Evaluated, before: int): int
    requires n <= |s|
  {
    if n == 0 then before
    else if s[n - 1].rule == rule then
      Evaluation(SalienceAfter(s, n - 1, rule, evaluated, before), rule.hasDynamicSalience, evaluated(n - 1))
    else SalienceAfter(s, n - 1, rule, evaluated, before)
  }

  /** The evaluation for the activation at `q` gives its rule a salience. */
  predicate Counts(s: seq<Activation>, q: nat, rule: Rule, evaluated: nat -> Evaluated)
    requires q < |s|
  {
    s[q].rule == rule && rule.hasDynamicSalience && evaluated(q).Integer? && -10000 <= evaluated(q).value <= 10000
  }

  /** A rule has the salience of the last evaluation that gave it one, and what it had before if none did. */
  lemma {:induction false} LastEvaluationCounts(
      s: seq<Activation>, n: nat, q: nat, rule: Rule, evaluated: nat -> Evaluated, before: int)
    requires n <= |s| && forall i :: q < i < n ==> !Counts(s, i, rule, evaluated)
    ensures q < n && Counts(s, q, rule, evaluated) ==>
      SalienceAfter(s, n, rule, evaluated, before) == evaluated(q).value
    ensures (forall i :: 0 <= i < n ==> !Counts(s, i, rule, evaluated)) ==>
      SalienceAfter(s, n, rule, evaluated, before) == before
  {
    if n > 0 {
      LastEvaluationCounts(s, n - 1, q, rule, evaluated, before);
      assert !Counts(s, n - 1, rule, evaluated) ==>
        SalienceAfter(s, n, rule, evaluated, before) == SalienceAfter(s, n - 1, rule, evaluated, before);
    }
  }

  /** A rule without activations keeps its salience. */
  lemma {:induction false} SalienceKept(
      s: seq<Activation>, n: nat, rule: Rule, evaluated: nat -> Evaluated, before: int)
    requires n <= |s| && rule !in RulesOf(s)
    ensures SalienceAfter(s, n, rule, evaluated, before) == before
  {
    if n > 0 {
      assert s[n - 1] in s;
      SalienceKept(s, n - 1, rule, evaluated, before);
    }
  }

  /** The first `n` activations are recomputed; `before` are the rules' old saliences. */
  ghost predicate Recomputed(s: seq<Activation>, n: nat, evaluated: nat -> Evaluated, before: map<Rule, int>)
    reads s`salience, RulesOf(s)`salience
  {
    && n <= |s| && RulesOf(s) == before.Keys
    && (forall r :: r in RulesOf(s) ==> r.salience == SalienceAfter(s, n, r, evaluated, before[r]))
    && forall j :: 0 <= j < n ==> s[j].salience == SalienceAfter(s, j + 1, s[j].rule, evaluated, before[s[j].rule])
  }

  lemma RecomputedNone(s: seq<Activation>, evaluated: nat -> Evaluated, before: map<Rule, int>)
    requires RulesHave(before, RulesOf(s))
    ensures Recomputed(s, 0, evaluated, before)
  {
  }

  lemma KeysDistinct(s: seq<Activation>, keys: seq<Key>)
    requires KeysMatch(s, keys) && DistinctTags(keys)
    ensures Distinct(s)
  {
    forall i, j | 0 <= i < j < |s| ensures s[i] != s[j] {
      assert TagsDiffer(keys[i], keys[j]) && keys[i] == s[i].Key() && keys[j] == s[j].Key();
    }
  }

  lemma SameMembers<T>(s: seq<T>, t: seq<T>)
    requires multiset(s) == multiset(t)
    ensures Members(s) == Members(t)
  {
    forall a ensures a in s <==> a in t {
      assert a in multiset(s) <==> a in multiset(t);
    }
  }

  /** The time tags tell activations apart, so a list follows from its keys. */
  lemma KeysFixOrder(s: seq<Activation>, t: seq<Activation>, keys: seq<Key>)
    requires KeysMatch(s, keys) && KeysMatch(t, keys) && DistinctTags(keys) && Members(s) == Members(t)
    ensures s == t
  {
    forall i | 0 <= i < |s| ensures s[i] == t[i] {
      assert s[i] in Members(t);
      var j :| 0 <= j < |t| && t[j] == s[i];
      assert keys[i] == s[i].Key() && keys[j] == t[j].Key();
      assert i < j ==> TagsDiffer(keys[i], keys[j]);
      assert j < i ==> TagsDiffer(keys[j], keys[i]);
    }
  }

  lemma KeysMatchInsert(s: seq<Activation>, keys: seq<Key>, p: nat, a: Activation)
    requires KeysMatch(s, keys) && p <= |s|
    ensures KeysMatch(Insert(s, p, a), Insert(keys, p, a.Key()))
  {
  }

  lemma KeysMatchRemove(s: seq<Activation>, keys: seq<Key>, p: nat)
    requires KeysMatch(s, keys) && p < |s|
    ensures KeysMatch(Remove(s, p), Remove(keys, p))
  {
  }

  /** The runs after only group `k` changed its ends. */
  lemma RunsMatchEnds(gs: seq<SalienceGroup>, runs: seq<Run<Activation?>>, k: nat)
    requires k < |gs| == |runs|
    requires forall l :: 0 <= l < |gs| && l != k ==> runs[l] == Run(gs[l].salience, gs[l].first, gs[l].last)
    ensures RunsMatch(gs, runs[k := Run(gs[k].salience, gs[k].first, gs[k].last)])
  {
  }

  ghost function Members<T>(s: seq<T>): set<T> {
    set x | x in s
  }

  /** What is left of the first `n` activations once those of some rules are gone. */
  ghost function Without(s: seq<Activation>, n: nat, rules: seq<Rule>): (r: seq<Activation>)
    requires n <= |s|
    ensures |r| <= n && forall a :: a in r ==> a in s
  {
    if n == 0 then []
    else Without(s, n - 1, rules) + if s[n - 1].rule in rules then [] else [s[n - 1]]
  }

  /** The list after the first `n` activations were looked at. */
  ghost function Clearing(s: seq<Activation>, n: nat, rules: seq<Rule>): (r: seq<Activation>)
    requires n <= |s|
    ensures forall a :: a in r ==> a in s
    ensures |r| == |Without(s, n, rules)| + |s| - n
    ensures n < |s| ==> r[|Without(s, n, rules)|] == s[n]
  {
    Without(s, n, rules) + s[n..]
  }

  lemma InsertMultiset<T>(s: seq<T>, p: nat, x: T)
    requires p <= |s|
    ensures multiset(Insert(s, p, x)) == multiset(s) + multiset{x}
  {
    assert s == s[..p] + s[p..];
  }

  lemma InsertMembers<T>(s: seq<T>, p: nat, x: T)
    requires p <= |s|
    ensures Members(Insert(s, p, x)) == Members(s) + {x}
  {
    var t := Insert(s, p, x);
    assert t[p] == x;
    forall y | y in s ensures y in t {
      var i :| 0 <= i < |s| && s[i] == y;
      assert t[if i < p then i else i + 1] == y;
    }
  }

  /** Every match of the list that can activate its rule has an activation. */
  ghost predicate Activated(ms: seq<PartialMatch>)
    reads ms`marker
  {
    ActivatedTo(ms, |ms|)
  }

  ghost predicate ActivatedTo(ms: seq<PartialMatch>, n: nat)
    reads ms`marker
  {
    forall i :: 0 <= i < |ms| && i < n && ms[i].activatesRule ==> ms[i].marker != null
  }

  /** A rule's disjunct with the complete matches its last join holds. */
  datatype Disjunct = Disjunct(rule: Rule, matches: seq<PartialMatch>)

  ghost function MatchesOf(ds: seq<Disjunct>): set<PartialMatch> {
    set d, m | d in ds && m in d.matches :: m
  }

  /** The activation is for a match of one of the disjuncts, and for that disjunct's rule. */
  ghost predicate IsFor(a: Activation, ds: seq<Disjunct>) {
    exists i :: 0 <= i < |ds| && a.basis in ds[i].matches && a.rule == ds[i].rule
  }

  ghost function DisjunctRules(ds: seq<Disjunct>): set<Rule> {
    set d | d in ds :: d.rule
  }

  /** Every match of the first `n` disjuncts that can activate its rule has an activation. */
  ghost predicate AllActivated(ds: seq<Disjunct>, n: nat)
    reads MatchesOf(ds)`marker
  {
    forall i {:trigger Activated(ds[i].matches)} :: 0 <= i < |ds| && i < n ==>
      Members(ds[i].matches) <= MatchesOf(ds) && Activated(ds[i].matches)
  }

  lemma NoneNeeded(ds: seq<Disjunct>)
    ensures AllActivated(ds, 0)
  {
  }

  lemma DisjunctMembers(ds: seq<Disjunct>, n: nat)
    requires n < |ds|
    ensures Members(ds[n].matches) <= MatchesOf(ds) && ds[n].rule in DisjunctRules(ds)
    ensures AllActivated(ds, |ds|) ==> Activated(ds[n].matches)
  {
    assert AllActivated(ds, |ds|) ==> Activated(ds[n].matches);
  }

  ghost function WithMarker(ds: seq<Disjunct>): set<PartialMatch>
    reads MatchesOf(ds)`marker
  {
    set m | m in MatchesOf(ds) && m.marker != null
  }

  ghost predicate AllIn(ds: seq<Disjunct>, n: nat, with: set<PartialMatch>) {
    forall i :: 0 <= i < |ds| && i < n ==> forall m :: m in ds[i].matches && m.activatesRule ==> m in with
  }

  lemma ActivatedHaveMarkers(ds: seq<Disjunct>, n: nat)
    ensures AllActivated(ds, n) <==> AllIn(ds, n, WithMarker(ds))
  {
    forall i | 0 <= i < |ds| && i < n
      ensures Activated(ds[i].matches) <==> forall m :: m in ds[i].matches && m.activatesRule ==> m in WithMarker(ds)
    {
      DisjunctMembers(ds, i);
    }
  }

  lemma ActivatedNext(ds: seq<Disjunct>, n: nat)
    requires n < |ds| && AllActivated(ds, n) && Activated(ds[n].matches)
    ensures AllActivated(ds, n + 1)
  {
    forall i | 0 <= i < |ds| && i < n + 1 ensures Members(ds[i].matches) <= MatchesOf(ds) && Activated(ds[i].matches) {
      DisjunctMembers(ds, i);
      if i < n { assert Activated(ds[i].matches); }
    }
  }

  lemma RemoveMembers<T>(s: seq<T>, p: nat)
    requires p < |s|
    ensures Members(Remove(s, p)) <= Members(s)
  {
  }

  lemma ClearingStep(s: seq<Activation>, n: nat, rules: seq<Rule>)
    requires n < |s|
    ensures Clearing(s, n + 1, rules) ==
      if s[n].rule in rules then Remove(Clearing(s, n, rules), |Without(s, n, rules)|) else Clearing(s, n, rules)
  {
  }

  // ----- the agenda -----

  /** What the agendas of all modules share. */
  class AgendaData {
    var strategy: Strategy
    var agendaChanged: bool
    var numberOfActivations: nat
    var currentTimetag: nat
    ghost var matches: set<PartialMatch>       // every match that ever got an activation

    constructor (strategy: Strategy)
      ensures this.strategy == strategy && numberOfActivations == 0 && currentTimetag == 0 && matches == {}
    {
      this.strategy, agendaChanged, numberOfActivations, currentTimetag := strategy, false, 0, 0;
      matches := {};
    }
  }

  class ModuleAgenda {
    const data: AgendaData
    var agenda: Activation?
    var groupings: SalienceGroup?
    ghost var acts: seq<Activation>            // the activations on the agenda, in order
    ghost var keys: seq<Key>                   // and what the strategies see of them
    ghost var groups: seq<SalienceGroup>
    ghost var runs: seq<Run<Activation?>>      // the ends the groups name
    ghost var others: set<Activation>          // on other agendas, or taken off to be fired

    constructor (data: AgendaData)
      ensures this.data == data && acts == [] && groups == [] && others == {}
      ensures Valid()
    {
      this.data := data;
      agenda, groupings := null, null;
      acts, keys, groups, runs, others := [], [], [], [], {};
    }

    /** The list alone; it survives while the index is stale. */
    ghost predicate ListValid()
      reads `agenda, `acts, `keys, acts`prev, acts`next, acts`salience
    {
      Linked(agenda, acts) && KeysMatch(acts, keys) && DistinctTags(keys)
    }

    /** Different time tags make the list free of repetitions. */
    lemma ListDistinct()
      requires ListValid()
      ensures Distinct(acts)
    {
      KeysDistinct(acts, keys);
    }

    ghost predicate GroupsValid()
      reads `groupings, `groups, `runs, groups`prev, groups`next, groups`first, groups`last
    {
      GroupsLinked(groupings, groups) && RunsMatch(groups, runs)
    }

    /** The index agrees with the list, apart from an unfilled group `hole`. */
    ghost predicate Agrees(hole: Hole)
      reads `acts, `keys, `runs
    {
      && |keys| == |acts|
      && IndexedBut(acts, SaliencesOf(keys), runs, hole)
      && (hole.Awaits? ==> hole.k < |runs| && runs[hole.k].first == null && runs[hole.k].last == null)
    }

    lemma GroupsDistinct()
      requires GroupsValid() && Decreasing(runs)
      ensures Distinct(groups)
    {
      forall k, l | 0 <= k < l < |groups| ensures groups[k] != groups[l] {
        assert Above(runs[k], runs[l]);
      }
    }

    ghost predicate Valid()
      reads `agenda, `groupings, `acts, `keys, `groups, `runs, data`strategy
      reads acts`prev, acts`next, acts`salience, groups
    {
      ListValid() && Ordered(data.strategy, keys) && GroupsValid() && Agrees(Complete)
    }

    lemma OneKeyEach()
      requires Valid()
      ensures |keys| == |acts|
    {
    }

    /** Matches and activations correspond one to one through `marker` and `basis`. */
    ghost predicate MarkersValid()
      reads `acts, data`matches, `others, data.matches`marker
    {
      MarkersFor(data.matches, acts, others)
    }

    /** Time tags in use are below the counter and all different. */
    ghost predicate TagsValid()
      reads `keys, `others, data`currentTimetag
    {
      TagsFor(keys, others, data.currentTimetag)
    }

    ghost predicate Consistent()
      reads this, data, acts`prev, acts`next, acts`salience, groups, data.matches`marker
    {
      Valid() && MarkersValid() && TagsValid() && data.numberOfActivations == |acts| + |others|
    }

    /** Walks the group list down to `salience`, stopping early below it. */
    method FindSalienceGroup(salience: int) returns (found: SalienceGroup?, ghost k: nat)
      requires GroupsValid() && Decreasing(runs)
      ensures found != null ==> k < |groups| && found == groups[k] && found.salience == salience
      ensures found == null ==> forall l :: 0 <= l < |groups| ==> groups[l].salience != salience
    {
      var g := groupings;
      k := 0;
      while g != null
        invariant 0 <= k <= |groups|
        invariant g == if k == |groups| then null else groups[k]
        invariant forall l :: 0 <= l < k ==> groups[l].salience > salience
        decreases |groups| - k
      {
        if g.salience == salience { return g, k; }
        if g.salience < salience {
          forall l | k <= l < |groups| ensures groups[l].salience < salience {
            assert l > k ==> Above(runs[k], runs[l]);
          }
          break;
        }
        g, k := g.next, k + 1;
      }
      found := null;
    }

    /** Creates an empty group and links it between its neighbours. */
    method CreateGroup(salience: int, lastGroup: SalienceGroup?, following: SalienceGroup?, ghost k: nat)
      returns (g: SalienceGroup)
      requires GroupsValid() && Distinct(groups) && k <= |groups|
      requires lastGroup == if k == 0 then null else groups[k - 1]
      requires following == if k == |groups| then null else groups[k]
      modifies this`groupings, this`groups, this`runs, groups`next, groups`prev
      ensures fresh(g) && groups == Insert(old(groups), k, g) && g.salience == salience
      ensures runs == Insert(old(runs), k, Run(salience, null, null)) && GroupsValid()
    {
      g := new SalienceGroup(salience, lastGroup, following);
      if g.next != null { g.next.prev := g; }
      if g.prev != null { g.prev.next := g; } else { groupings := g; }
      GroupsSpliced(groupings, groups, k, g);
      groups := Insert(groups, k, g);
      runs := Insert(runs, k, Run(salience, null, null));
    }

    /** Finds the group of `salience`, or links an empty one where it belongs. */
    method ReuseOrCreateSalienceGroup(salience: int) returns (g: SalienceGroup, ghost k: nat, ghost hole: Hole)
      requires GroupsValid() && Agrees(Complete)
      modifies this`groupings, this`groups, this`runs, groups`next, groups`prev
      ensures GroupsValid() && Agrees(hole) && (hole == Awaits(k) || hole == Complete)
      ensures k < |groups| && groups[k] == g && g.salience == salience
      ensures hole == Complete ==> groups == old(groups)
      ensures hole == Awaits(k) ==> k <= |old(groups)| && fresh(g) && groups == Insert(old(groups), k, g)
    {
      var lastGroup: SalienceGroup? := null;
      var h := groupings;
      k := 0;
      while h != null
        invariant 0 <= k <= |groups|
        invariant h == if k == |groups| then null else groups[k]
        invariant lastGroup == if k == 0 then null else groups[k - 1]
        invariant forall l :: 0 <= l < k ==> runs[l].salience > salience
        decreases |groups| - k
      {
        if h.salience == salience { return h, k, Complete; }
        if h.salience < salience { break; }
        lastGroup, h, k := h, h.next, k + 1;
      }
      forall l | k <= l < |runs| ensures runs[l].salience < salience {
        assert l > k ==> Above(runs[k], runs[l]);
      }
      GroupsDistinct();
      AddHole(acts, SaliencesOf(keys), runs, k, Run(salience, null, null));
      g := CreateGroup(salience, lastGroup, h, k);
      hole := Awaits(k);
    }

    /** The stretch [lo, hi] of the group's activations, empty for a new group. */
    ghost predicate Extent(g: SalienceGroup, lo: nat, hi: int)
      reads `acts, `keys, g`first, g`last
    {
      && lo <= hi + 1 <= |acts| == |keys|
      && (forall i :: 0 <= i < lo ==> keys[i].salience > g.salience)
      && (forall i :: lo <= i <= hi ==> keys[i].salience == g.salience)
      && (forall i :: hi < i < |keys| ==> keys[i].salience < g.salience)
      && (if lo <= hi then g.first == acts[lo] && g.last == acts[hi] else g.first == g.last == null)
    }

    lemma ExtentOf(g: SalienceGroup, k: nat, hole: Hole) returns (lo: nat, hi: int)
      requires GroupsValid() && Agrees(hole) && Ordered(data.strategy, keys)
      requires k < |groups| && groups[k] == g && (hole == Awaits(k) || hole == Complete)
      ensures Extent(g, lo, hi)
      ensures (if g.prev == null then null else g.prev.last) == if lo == 0 then null else acts[lo - 1]
    {
      OrderedSaliences(data.strategy, keys);
      lo := RunStart(acts, SaliencesOf(keys), runs, k, hole);
      hi := lo - 1;
      if hole == Complete {
        hi := RunEnds(acts, SaliencesOf(keys), runs[k], lo);
      }
      assert runs[k] == Run(g.salience, g.first, g.last);
      if k > 0 {
        assert runs[k - 1] == Run(groups[k - 1].salience, groups[k - 1].first, groups[k - 1].last);
      }
      assert forall i :: 0 <= i < |keys| ==> SaliencesOf(keys)[i] == keys[i].salience;
      assert hole == Awaits(k) ==> forall i :: 0 <= i < |keys| ==> SaliencesOf(keys)[i] != g.salience;
    }

    /** Walks the group from its first activation past every one that stays ahead
        of `a`: the loop all strategies but breadth share. */
    method WalkForward(a: Activation, g: SalienceGroup, ghost lo: nat, ghost hi: int)
      returns (placeAfter: Activation?, ghost p: nat)
      requires Linked(agenda, acts) && Distinct(acts) && KeysMatch(acts, keys) && Extent(g, lo, hi)
      requires (if g.prev == null then null else g.prev.last) == if lo == 0 then null else acts[lo - 1]
      ensures lo <= p <= hi + 1 && placeAfter == if p == 0 then null else acts[p - 1]
      ensures forall i :: lo <= i < p ==> StaysAhead(data.strategy, keys[i], a.Key())
      ensures p <= hi ==> !StaysAhead(data.strategy, keys[p], a.Key())
    {
      placeAfter := if g.prev == null then null else g.prev.last;
      p := lo;
      var dot := g.first;
      while dot != null
        invariant lo <= p <= hi + 1
        invariant dot == if p <= hi then acts[p] else null
        invariant placeAfter == if p == 0 then null else acts[p - 1]
        invariant forall i :: lo <= i < p ==> StaysAhead(data.strategy, keys[i], a.Key())
        decreases hi - p
      {
        if StaysAhead(data.strategy, dot.Key(), a.Key()) {
          placeAfter := dot;
          p := p + 1;
          if dot == g.last { break; }
          dot := dot.next;
        } else {
          break;
        }
      }
    }

    /** The breadth strategy walks the group from its last activation instead. */
    method WalkBackward(a: Activation, g: SalienceGroup, ghost lo: nat, ghost hi: int)
      returns (placeAfter: Activation?, ghost p: nat)
      requires data.strategy == Breadth
      requires Linked(agenda, acts) && Distinct(acts) && KeysMatch(acts, keys) && Extent(g, lo, hi)
      requires (if g.prev == null then null else g.prev.last) == if lo == 0 then null else acts[lo - 1]
      ensures lo <= p <= hi + 1 && placeAfter == if p == 0 then null else acts[p - 1]
      ensures forall i :: p <= i <= hi ==> !StaysAhead(data.strategy, keys[i], a.Key())
      ensures lo < p ==> StaysAhead(data.strategy, keys[p - 1], a.Key())
    {
      placeAfter := if g.last == null then (if g.prev == null then null else g.prev.last) else g.last;
      p := hi + 1;
      var dot := g.last;
      while dot != null
        invariant lo <= p <= hi + 1
        invariant dot == if lo < p then acts[p - 1] else null
        invariant lo == hi + 1 ==> placeAfter == if p == 0 then null else acts[p - 1]
        invariant lo <= hi ==> lo < p
        invariant forall i :: p <= i <= hi ==> !StaysAhead(data.strategy, keys[i], a.Key())
        decreases p
      {
        if a.timetag < dot.timetag {
          p := p - 1;
          if dot == g.first {
            placeAfter := if g.prev == null then null else g.prev.last;
            break;
          }
          dot := dot.prev;
        } else {
          placeAfter := dot;
          break;
        }
      }
    }

    /** All before `p` go ahead of `key`, and `key` goes ahead of all from `p` on. */
    ghost predicate Splits(p: nat, key: Key)
      reads data`strategy, `keys
    {
      && (forall i :: 0 <= i < |keys| && i < p ==> Before(data.strategy, keys[i], key))
      && (forall i :: p <= i < |keys| ==> Before(data.strategy, key, keys[i]))
    }

    lemma ForwardSplits(g: SalienceGroup, lo: nat, p: nat, hi: int, key: Key)
      requires Extent(g, lo, hi) && Ordered(data.strategy, keys) && key.salience == g.salience
      requires forall i :: 0 <= i < |keys| ==> keys[i].timetag != key.timetag
      requires lo <= p <= hi + 1 && forall i :: lo <= i < p ==> StaysAhead(data.strategy, keys[i], key)
      requires p <= hi ==> !StaysAhead(data.strategy, keys[p], key)
      ensures Splits(p, key)
    {
      if p <= hi { BeforeTotal(data.strategy, key, keys[p]); }
      forall i | p <= i < |keys| ensures Before(data.strategy, key, keys[i]) {
        if p < i <= hi { BeforeTransitive(data.strategy, key, keys[p], keys[i]); }
      }
    }

    lemma BackwardSplits(g: SalienceGroup, lo: nat, p: nat, hi: int, key: Key)
      requires Extent(g, lo, hi) && Ordered(data.strategy, keys) && key.salience == g.salience
      requires forall i :: 0 <= i < |keys| ==> keys[i].timetag != key.timetag
      requires lo <= p <= hi + 1 && forall i :: p <= i <= hi ==> !StaysAhead(data.strategy, keys[i], key)
      requires lo < p ==> StaysAhead(data.strategy, keys[p - 1], key)
      ensures Splits(p, key)
    {
      forall i | 0 <= i < p ensures Before(data.strategy, keys[i], key) {
        if lo <= i < p - 1 { BeforeTransitive(data.strategy, keys[i], keys[p - 1], key); }
      }
      forall i | p <= i < |keys| ensures Before(data.strategy, key, keys[i]) {
        if i <= hi { BeforeTotal(data.strategy, key, keys[i]); }
      }
    }

    /** The place of `a` by walking its group. */
    method Walk(a: Activation, g: SalienceGroup, ghost lo: nat, ghost hi: int)
      returns (placeAfter: Activation?, ghost p: nat)
      requires Linked(agenda, acts) && Distinct(acts) && KeysMatch(acts, keys) && Ordered(data.strategy, keys)
      requires Extent(g, lo, hi) && a.salience == g.salience
      requires (if g.prev == null then null else g.prev.last) == if lo == 0 then null else acts[lo - 1]
      requires forall i :: 0 <= i < |keys| ==> keys[i].timetag != a.timetag
      ensures lo <= p <= hi + 1 && placeAfter == if p == 0 then null else acts[p - 1]
      ensures Splits(p, a.Key())
    {
      if data.strategy == Breadth {
        placeAfter, p := WalkBackward(a, g, lo, hi);
        BackwardSplits(g, lo, p, hi, a.Key());
      } else {
        placeAfter, p := WalkForward(a, g, lo, hi);
        ForwardSplits(g, lo, p, hi, a.Key());
      }
    }

    /** Moves the ends of the group that receives `a` after `placeAfter`. */
    method MoveEnds(a: Activation, g: SalienceGroup, placeAfter: Activation?,
                    ghost lo: nat, ghost p: nat, ghost hi: int)
      requires Distinct(acts) && Extent(g, lo, hi) && g.prev != g && a !in acts
      requires (if g.prev == null then null else g.prev.last) == if lo == 0 then null else acts[lo - 1]
      requires lo <= p <= hi + 1 && placeAfter == if p == 0 then null else acts[p - 1]
      modifies g`first, g`last
      ensures g.first == if p == lo then a else old(g.first)
      ensures g.last == if p == hi + 1 then a else old(g.last)
    {
      if placeAfter == null || (g.prev != null && g.prev.last == placeAfter) { g.first := a; }
      if g.last == null || g.last == placeAfter { g.last := a; }
    }

    /** Makes `a` the last of its group. */
    method PlaceAfterLast(a: Activation, g: SalienceGroup, ghost lo: nat, ghost hi: int)
      returns (placeAfter: Activation?, ghost p: nat)
      requires KeysMatch(acts, keys) && Ordered(data.strategy, keys)
      requires Extent(g, lo, hi) && a.salience == g.salience && g.last != null
      requires StaysAhead(data.strategy, g.last.Key(), a.Key())
      requires forall i :: 0 <= i < |keys| ==> keys[i].timetag != a.timetag
      modifies g`last
      ensures p == hi + 1 && placeAfter == old(g.last) == acts[hi] && lo <= hi && Splits(p, a.Key())
      ensures g.last == a
    {
      BackwardSplits(g, lo, hi + 1, hi, a.Key());
      placeAfter, p := g.last, hi + 1;
      g.last := a;
    }

    /** Chooses the place of `a` and moves the ends of its group. */
    method ChoosePlace(a: Activation, g: SalienceGroup, ghost lo: nat, ghost hi: int)
      returns (placeAfter: Activation?, ghost p: nat)
      requires Linked(agenda, acts) && Distinct(acts) && KeysMatch(acts, keys) && Ordered(data.strategy, keys)
      requires a !in acts
      requires Extent(g, lo, hi) && a.salience == g.salience && g.prev != g
      requires (if g.prev == null then null else g.prev.last) == if lo == 0 then null else acts[lo - 1]
      requires forall i :: 0 <= i < |keys| ==> keys[i].timetag != a.timetag
      modifies g`first, g`last
      ensures lo <= p <= hi + 1 && placeAfter == if p == 0 then null else acts[p - 1]
      ensures Splits(p, a.Key())
      ensures g.first == if p == lo then a else old(g.first)
      ensures g.last == if p == hi + 1 then a else old(g.last)
    {
      if agenda == null {
        g.first, g.last := a, a;
        return null, 0;
      }
      // The recency strategies look at the end of the group before they walk it.
      if (data.strategy == Lex || data.strategy == Mea) && g.last != null
         && StaysAhead(data.strategy, g.last.Key(), a.Key()) {
        placeAfter, p := PlaceAfterLast(a, g, lo, hi);
        return;
      }
      placeAfter, p := Walk(a, g, lo, hi);
      MoveEnds(a, g, placeAfter, lo, p, hi);
    }

    /** Links `a` after `placeAfter`, or at the head. */
    method LinkActivation(a: Activation, placeAfter: Activation?, ghost p: nat)
      requires Linked(agenda, acts) && Distinct(acts) && a !in acts && a.prev == null && a.next == null
      requires p <= |acts| && placeAfter == if p == 0 then null else acts[p - 1]
      modifies `agenda, data`agendaChanged, acts`prev, acts`next, a`prev, a`next
      ensures Linked(agenda, Insert(acts, p, a)) && data.agendaChanged
    {
      data.agendaChanged := true;
      if placeAfter == null {
        a.next := agenda;
        agenda := a;
        if a.next != null { a.next.prev := a; }
      } else {
        a.next := placeAfter.next;
        a.prev := placeAfter;
        placeAfter.next := a;
        if a.next != null { a.next.prev := a; }
      }
      Spliced(agenda, acts, p, a);
    }

    twostate lemma ListUntouched()
      requires old(ListValid())
      requires agenda == old(agenda) && acts == old(acts) && keys == old(keys)
      requires unchanged(acts)
      ensures ListValid()
    {
    }

    twostate lemma GroupsUntouched()
      requires old(GroupsValid())
      requires groupings == old(groupings) && groups == old(groups) && runs == old(runs)
      requires unchanged(groups)
      ensures GroupsValid()
    {
    }

    /** Links `a` in and marks the agenda as changed. */
    method EnlistActivation(a: Activation, placeAfter: Activation?, ghost p: nat)
      requires ListValid() && a !in acts && a.prev == null && a.next == null
      requires p <= |acts| && placeAfter == if p == 0 then null else acts[p - 1]
      requires forall i :: 0 <= i < |keys| ==> keys[i].timetag != a.timetag
      modifies `agenda, `acts, `keys, data`agendaChanged, acts`prev, acts`next, a`prev, a`next
      ensures ListValid() && data.agendaChanged
      ensures acts == Insert(old(acts), p, a) && keys == Insert(old(keys), p, a.Key())
    {
      ListDistinct();
      InsertDistinctTags(keys, p, a.Key());
      LinkActivation(a, placeAfter, p);
      KeysMatchInsert(acts, keys, p, a);
      acts, keys := Insert(acts, p, a), Insert(keys, p, a.Key());
    }

    method JoinList(a: Activation, placeAfter: Activation?, ghost p: nat)
      requires ListValid() && GroupsValid() && a !in acts && a.prev == null && a.next == null
      requires p <= |acts| && placeAfter == if p == 0 then null else acts[p - 1]
      requires forall i :: 0 <= i < |keys| ==> keys[i].timetag != a.timetag
      modifies `agenda, `acts, `keys, data`agendaChanged, acts`prev, acts`next, a`prev, a`next
      ensures ListValid() && GroupsValid() && data.agendaChanged
      ensures acts == Insert(old(acts), p, a) && keys == Insert(old(keys), p, a.Key())
    {
      EnlistActivation(a, placeAfter, p);
      GroupsUntouched();
    }

    /** The index after `a` was put at `p` and the ends of its group were moved. */
    lemma PlacedAgrees(a: Activation, g: SalienceGroup, k: nat, hole: Hole, lo: nat, p: nat, hi: int)
      requires Agrees(hole) && Ordered(data.strategy, keys) && Extent(g, lo, hi) && a !in acts
      requires k < |groups| == |runs| && runs[k] == Run(g.salience, g.first, g.last)
      requires (hole == Awaits(k) || hole == Complete) && lo <= p <= hi + 1 && a.salience == g.salience
      ensures Indexed(Insert(acts, p, a), SaliencesOf(Insert(keys, p, a.Key())),
                      runs[k := Run(g.salience, if p == lo then a else g.first, if p == hi + 1 then a else g.last)])
    {
      OrderedSaliences(data.strategy, keys);
      assert lo <= hi ==> SaliencesOf(keys)[lo] == SaliencesOf(keys)[hi] == g.salience;
      InsertIndexed(acts, SaliencesOf(keys), runs, k, hole, p, a, p == lo, p == hi + 1);
      assert SaliencesOf(Insert(keys, p, a.Key())) == Insert(SaliencesOf(keys), p, a.salience);
    }

    /** Moves the ends of the group of `a`; the other groups keep theirs. */
    method ChooseEnds(a: Activation, g: SalienceGroup, ghost k: nat, ghost lo: nat, ghost hi: int)
      returns (placeAfter: Activation?, ghost p: nat)
      requires Linked(agenda, acts) && Distinct(acts) && KeysMatch(acts, keys) && Ordered(data.strategy, keys)
      requires a !in acts
      requires GroupsValid() && Distinct(groups) && k < |groups| && groups[k] == g
      requires Extent(g, lo, hi) && a.salience == g.salience
      requires (if g.prev == null then null else g.prev.last) == if lo == 0 then null else acts[lo - 1]
      requires forall i :: 0 <= i < |keys| ==> keys[i].timetag != a.timetag
      modifies g`first, g`last, this`runs
      ensures lo <= p <= hi + 1 && placeAfter == if p == 0 then null else acts[p - 1]
      ensures Splits(p, a.Key()) && GroupsValid()
      ensures runs == old(runs)[k := Run(g.salience, if p == lo then a else old(g.first),
                                          if p == hi + 1 then a else old(g.last))]
    {
      placeAfter, p := ChoosePlace(a, g, lo, hi);
      RunsMatchEnds(groups, runs, k);
      runs := runs[k := Run(g.salience, g.first, g.last)];
    }

    /** Chooses the place of `a` so that the index is complete once `a` is there. */
    method Settle(a: Activation, g: SalienceGroup, ghost k: nat, ghost hole: Hole)
      returns (placeAfter: Activation?, ghost p: nat)
      requires ListValid() && Ordered(data.strategy, keys) && GroupsValid() && Agrees(hole)
      requires k < |groups| && groups[k] == g && (hole == Awaits(k) || hole == Complete)
      requires a !in acts && a.salience == g.salience
      requires forall i :: 0 <= i < |keys| ==> keys[i].timetag != a.timetag
      modifies `runs, g`first, g`last
      ensures p <= |acts| && placeAfter == if p == 0 then null else acts[p - 1]
      ensures Ordered(data.strategy, Insert(keys, p, a.Key())) && ListValid() && GroupsValid()
      ensures |keys| == |acts| && Indexed(Insert(acts, p, a), SaliencesOf(Insert(keys, p, a.Key())), runs)
    {
      ListDistinct();
      GroupsDistinct();
      ghost var lo, hi := ExtentOf(g, k, hole);
      PlacedAgreesAnywhere(a, g, k, hole, lo, hi);
      placeAfter, p := ChooseEnds(a, g, k, lo, hi);
      InsertOrdered(data.strategy, keys, p, a.Key());
      ListUntouched();
    }

    /** Puts a new activation where the strategy wants it and completes its group. */
    method PlaceActivation(a: Activation, g: SalienceGroup, ghost k: nat, ghost hole: Hole) returns (ghost p: nat)
      requires ListValid() && Ordered(data.strategy, keys) && GroupsValid() && Agrees(hole)
      requires k < |groups| && groups[k] == g && (hole == Awaits(k) || hole == Complete)
      requires a !in acts && a.prev == null && a.next == null && a.salience == g.salience
      requires forall i :: 0 <= i < |keys| ==> keys[i].timetag != a.timetag
      modifies `agenda, `acts, `keys, `runs, data`agendaChanged
      modifies acts`prev, acts`next, a`prev, a`next, g`first, g`last
      ensures Valid() && data.agendaChanged
      ensures p <= |old(acts)| && acts == Insert(old(acts), p, a) && keys == Insert(old(keys), p, a.Key())
    {
      var placeAfter;
      placeAfter, p := Settle(a, g, k, hole);
      JoinList(a, placeAfter, p);
    }

    lemma PlacedAgreesAnywhere(a: Activation, g: SalienceGroup, k: nat, hole: Hole, lo: nat, hi: int)
      requires Agrees(hole) && Ordered(data.strategy, keys) && Extent(g, lo, hi) && a !in acts
      requires k < |groups| == |runs| && runs[k] == Run(g.salience, g.first, g.last)
      requires (hole == Awaits(k) || hole == Complete) && a.salience == g.salience
      ensures forall p: nat :: lo <= p <= hi + 1 ==>
        Indexed(Insert(acts, p, a), SaliencesOf(Insert(keys, p, a.Key())),
                runs[k := Run(g.salience, if p == lo then a else g.first, if p == hi + 1 then a else g.last)])
    {
      forall p: nat | lo <= p <= hi + 1 { PlacedAgrees(a, g, k, hole, lo, p, hi); }
    }

    /** Takes a group out of the group list. */
    method UnlinkGroup(g: SalienceGroup, ghost k: nat)
      requires GroupsValid() && Distinct(groups) && k < |groups| && groups[k] == g
      modifies `groupings, `groups, `runs, groups`next, groups`prev
      ensures GroupsValid()
      ensures groups == Remove(old(groups), k) && runs == Remove(old(runs), k)
    {
      if g.prev == null { groupings := g.next; } else { g.prev.next := g.next; }
      if g.next != null { g.next.prev := g.prev; }
      GroupsSkipped(groupings, groups, k);
      groups, runs := Remove(groups, k), Remove(runs, k);
    }

    /** The run of an activation, and the index once the activation is gone. */
    lemma RunWithout(p: nat, k: nat)
      requires ListValid() && Agrees(Complete) && Ordered(data.strategy, keys)
      requires p < |acts| && k < |runs| && runs[k].salience == acts[p].salience
      ensures runs[k].first != runs[k].last ==>
        Indexed(Remove(acts, p), SaliencesOf(Remove(keys, p)), runs[k := Shrunk(acts, runs[k], p)])
      ensures runs[k].first != runs[k].last && runs[k].first == acts[p] ==> p + 1 < |acts|
      ensures runs[k].first != runs[k].last && runs[k].last == acts[p] ==> 0 < p
      ensures runs[k].first == runs[k].last ==> runs[k].first == acts[p]
      ensures runs[k].first == runs[k].last ==>
        Indexed(Remove(acts, p), SaliencesOf(Remove(keys, p)), Remove(runs, k))
    {
      ListDistinct();
      OrderedSaliences(data.strategy, keys);
      assert Bounds(acts, SaliencesOf(keys), runs[k]);
      assert SaliencesOf(Remove(keys, p)) == Remove(SaliencesOf(keys), p);
      if runs[k].first != runs[k].last {
        RemoveIndexed(acts, SaliencesOf(keys), runs, k, p);
        if runs[k].first == acts[p] {
          RemoveFirst(acts, SaliencesOf(keys), runs[k], p);
        } else if runs[k].last == acts[p] {
          RemoveLast(acts, SaliencesOf(keys), runs[k], p);
        }
      } else {
        EndsOfRun(p, k);
        RemoveRun(acts, SaliencesOf(keys), runs, k, p);
      }
    }

    /** The only activation of its run is both of the run's ends. */
    lemma EndsOfRun(p: nat, k: nat)
      requires ListValid() && Agrees(Complete) && Ordered(data.strategy, keys)
      requires p < |acts| && k < |runs| && runs[k].salience == acts[p].salience
      requires runs[k].first == runs[k].last
      ensures runs[k].first == acts[p]
    {
      ListDistinct();
      OrderedSaliences(data.strategy, keys);
      assert Bounds(acts, SaliencesOf(keys), runs[k]);
      var f: nat :| f < |acts| && acts[f] == runs[k].first;
      assert SaliencesOf(keys)[p] == acts[p].salience;
    }

    lemma HasRun(p: nat) returns (k: nat)
      requires ListValid() && Agrees(Complete) && p < |acts|
      ensures k < |runs| && runs[k].salience == acts[p].salience
    {
      assert SaliencesOf(keys)[p] == keys[p].salience;
      k := SalienceIndex.RunOf(runs, acts[p].salience);
    }

    /** Moves the ends of a group of several activations off `a`. */
    method ShrinkGroup(a: Activation, g: SalienceGroup, ghost k: nat, ghost p: nat)
      requires GroupsValid() && Distinct(groups) && k < |groups| && groups[k] == g
      requires Linked(agenda, acts) && p < |acts| && acts[p] == a
      requires a == g.first ==> p + 1 < |acts|
      requires a != g.first && a == g.last ==> 0 < p
      modifies g`first, g`last, `runs
      ensures GroupsValid() && runs == old(runs)[k := Shrunk(acts, old(runs)[k], p)]
    {
      if a == g.first {
        g.first := a.next;
      } else if a == g.last {
        g.last := a.prev;
      }
      RunsMatchEnds(groups, runs, k);
      runs := runs[k := Run(g.salience, g.first, g.last)];
    }

    /** Updates the index for the removal of `a`, which is still on the list. */
    method RemoveActivationFromGroup(a: Activation, ghost p: nat) returns (ghost k: nat)
      requires Valid() && p < |acts| && acts[p] == a
      modifies `groupings, `groups, `runs, groups
      ensures ListValid() && GroupsValid() && |keys| == |acts|
      ensures Indexed(Remove(acts, p), SaliencesOf(Remove(keys, p)), runs)
      ensures groups == old(groups) || (k < |old(groups)| && groups == Remove(old(groups), k))
    {
      ghost var has := HasRun(p);
      GroupsDistinct();
      var g;
      g, k := FindSalienceGroup(a.salience);
      assert runs[has] == Run(groups[has].salience, groups[has].first, groups[has].last);
      RunWithout(p, k);
      assert runs[k] == Run(g.salience, g.first, g.last);
      if a == g.first && a == g.last {
        UnlinkGroup(g, k);
      } else {
        ShrinkGroup(a, g, k, p);
      }
      ListUntouched();
    }

    /** The links after `a` was taken out, for good or to be fired. */
    method UnlinkActivation(a: Activation, forFiring: bool, ghost p: nat)
      requires Linked(agenda, acts) && Distinct(acts) && p < |acts| && acts[p] == a
      modifies `agenda, data`agendaChanged, acts`prev, acts`next
      ensures Linked(agenda, Remove(acts, p)) && data.agendaChanged
      ensures forFiring ==> a.prev == null && a.next == null
    {
      if forFiring {
        if a == agenda { agenda := a.next; }
        if a.prev != null { a.prev.next := a.next; }
        if a.next != null { a.next.prev := a.prev; }
        a.prev := null;
        a.next := null;
      } else if a.prev == null {
        agenda := agenda.next;
        if agenda != null { agenda.prev := null; }
      } else {
        a.prev.next := a.next;
        if a.next != null { a.next.prev := a.prev; }
      }
      data.agendaChanged := true;
      Skipped(agenda, acts, p);
    }

    method DelistActivation(a: Activation, forFiring: bool, ghost p: nat)
      requires ListValid() && p < |acts| && acts[p] == a
      modifies `agenda, data`agendaChanged, `acts, `keys, acts`prev, acts`next
      ensures ListValid() && data.agendaChanged
      ensures forFiring ==> a.prev == null && a.next == null
      ensures acts == Remove(old(acts), p) && keys == Remove(old(keys), p)
    {
      ListDistinct();
      RemoveDistinctTags(keys, p);
      UnlinkActivation(a, forFiring, p);
      KeysMatchRemove(acts, keys, p);
      acts, keys := Remove(acts, p), Remove(keys, p);
    }

    method LeaveList(a: Activation, forFiring: bool, ghost p: nat)
      requires ListValid() && GroupsValid() && p < |acts| && acts[p] == a
      modifies `agenda, data`agendaChanged, `acts, `keys, acts`prev, acts`next
      ensures ListValid() && GroupsValid() && data.agendaChanged
      ensures forFiring ==> a.prev == null && a.next == null
      ensures acts == Remove(old(acts), p) && keys == Remove(old(keys), p)
    {
      DelistActivation(a, forFiring, p);
      GroupsUntouched();
    }

    /** Takes `a` off the agenda: index first, links second. */
    method TakeOff(a: Activation, forFiring: bool, ghost p: nat) returns (ghost k: nat)
      requires Valid() && p < |acts| && acts[p] == a
      modifies `agenda, data`agendaChanged, `acts, `keys, acts`prev, acts`next
      modifies `groupings, `groups, `runs, groups
      ensures Valid() && data.agendaChanged
      ensures forFiring ==> a.prev == null && a.next == null
      ensures acts == Remove(old(acts), p) && keys == Remove(old(keys), p)
      ensures groups == old(groups) || (k < |old(groups)| && groups == Remove(old(groups), k))
    {
      RemoveOrdered(data.strategy, keys, p);
      k := RemoveActivationFromGroup(a, p);
      LeaveList(a, forFiring, p);
    }

    /** Places an activation that is not on the agenda. */
    method PlaceNew(a: Activation) returns (ghost p: nat)
      requires Valid() && a !in acts && a.prev == null && a.next == null
      requires forall i :: 0 <= i < |keys| ==> keys[i].timetag != a.timetag
      modifies `agenda, data`agendaChanged, `acts, `keys, acts`prev, acts`next, a`prev, a`next
      modifies `groupings, `groups, `runs, groups
      ensures Valid() && data.agendaChanged
      ensures p <= |old(acts)| && acts == Insert(old(acts), p, a) && keys == Insert(old(keys), p, a.Key())
      ensures fresh(Members(groups) - old(Members(groups)))
    {
      hide Linked, KeysMatch, DistinctTags, Ordered, IndexedBut, GroupsLinked, RunsMatch;
      ghost var groups' := groups;
      var g; ghost var k, hole;
      g, k, hole := ReuseOrCreateSalienceGroup(a.salience);
      ListUntouched();
      p := PlaceActivation(a, g, k, hole);
      if groups != groups' { InsertMembers(groups', k, g); }
    }

    /** The rule's salience: re-evaluated unless saliences are fixed when rules are
        defined; `evaluated` is what its expression gave. */
    method EvaluateSalience(rule: Rule, whenDefined: bool, evaluated: Evaluated) returns (salience: int)
      modifies rule`salience
      ensures rule.salience == salience
      ensures !whenDefined && rule.hasDynamicSalience && evaluated.Integer? && -10000 <= evaluated.value <= 10000 ==>
        salience == evaluated.value
      ensures !(!whenDefined && rule.hasDynamicSalience && evaluated.Integer? && -10000 <= evaluated.value <= 10000) ==>
        salience == old(rule.salience)
      ensures salience == Evaluation(old(rule.salience), !whenDefined && rule.hasDynamicSalience, evaluated)
    {
      if whenDefined || !rule.hasDynamicSalience { return rule.salience; }
      match evaluated {
        case EvaluationError => return rule.salience;
        case NotAnInteger => return rule.salience;
        case Integer(value) =>
          if value > MAX_SALIENCE || value < MIN_SALIENCE { return rule.salience; }
          rule.salience := value;
          return rule.salience;
      }
    }

    twostate lemma ValidUntouched()
      requires old(Valid())
      requires agenda == old(agenda) && groupings == old(groupings) && data.strategy == old(data.strategy)
      requires acts == old(acts) && keys == old(keys) && groups == old(groups) && runs == old(runs)
      requires unchanged(acts) && unchanged(groups)
      ensures Valid()
    {
    }

    /** `a` is made and linked with its match, but on no list yet. */
    ghost predicate Created(a: Activation)
      reads this, data, a`prev, a`next, data.matches`marker
    {
      && a !in acts && a.prev == null && a.next == null
      && (forall i :: 0 <= i < |keys| ==> keys[i].timetag != a.timetag)
      && MarkersFor(data.matches, acts, others + {a}) && a.basis in data.matches && a.basis.marker == a
      && TagsFor(keys, others, a.timetag) && data.currentTimetag == a.timetag + 1
      && data.numberOfActivations == |acts| + 1 + |others|
    }

    /** A new activation for `binds`, linked with it but not placed yet. */
    method CreateActivation(rule: Rule, binds: PartialMatch, randomID: int, salience: int) returns (a: Activation)
      requires Consistent() && binds.marker == null
      modifies data`currentTimetag, data`numberOfActivations, data`matches, binds`marker
      ensures Valid() && Created(a)
      ensures fresh(a) && a.rule == rule && a.basis == binds && a.timetag == old(data.currentTimetag)
      ensures a.randomID == randomID && a.salience == salience && data.matches == old(data.matches) + {binds}
    {
      TagsBelow();
      a := new Activation(rule, binds, data.currentTimetag, randomID, salience);
      data.currentTimetag := data.currentTimetag + 1;
      data.numberOfActivations := data.numberOfActivations + 1;
      binds.marker := a;
      data.matches := data.matches + {binds};
      ValidUntouched();
    }

    /** Places an activation that its match already names. */
    method PlaceCreated(a: Activation) returns (ghost p: nat)
      requires Valid() && Created(a)
      modifies `agenda, data`agendaChanged, `acts, `keys, acts`prev, acts`next, a`prev, a`next
      modifies `groupings, `groups, `runs, groups
      ensures Consistent() && data.agendaChanged
      ensures p <= |old(acts)| && acts == Insert(old(acts), p, a) && keys == Insert(old(keys), p, a.Key())
      ensures fresh(Members(groups) - old(Members(groups)))
    {
      hide Valid, MarkersFor, TagsFor;
      OneKeyEach();
      ghost var s, was := acts, keys;
      p := PlaceNew(a);
      BooksAfterAdding(s, was, p, a);
      assert data.numberOfActivations == |acts| + |others|;
    }

    method AddEvaluated(rule: Rule, binds: PartialMatch, randomID: int, salience: int)
      returns (a: Activation, ghost p: nat)
      requires Consistent() && binds.marker == null
      modifies `agenda, data`agendaChanged, `acts, `keys, `groupings, `groups, `runs,
        data`matches, data`numberOfActivations, data`currentTimetag
      modifies acts`prev, acts`next, groups, binds`marker
      ensures Consistent() && data.agendaChanged
      ensures data.matches == old(data.matches) + {binds}
      ensures fresh(a) && a.rule == rule && a.basis == binds && a.timetag == old(data.currentTimetag)
      ensures a.randomID == randomID && a.salience == salience
      ensures p <= |old(acts)| && acts == Insert(old(acts), p, a)
      ensures fresh(Members(groups) - old(Members(groups)))
    {
      hide Valid, MarkersFor, TagsFor, Created;
      a := CreateActivation(rule, binds, randomID, salience);
      assert Members(groups) == old(Members(groups));
      p := PlaceCreated(a);
    }

    /** Activates a rule for a match that has no activation. */
    method AddActivation(rule: Rule, binds: PartialMatch, randomID: int, whenDefined: bool, evaluated: Evaluated)
      returns (a: Activation, ghost p: nat)
      requires Consistent() && binds.marker == null
      modifies `agenda, data`agendaChanged, `acts, `keys, `groupings, `groups, `runs,
        data`matches, data`numberOfActivations, data`currentTimetag
      modifies acts`prev, acts`next, groups, binds`marker, rule`salience
      ensures Consistent() && data.agendaChanged
      ensures data.matches == old(data.matches) + {binds}
      ensures fresh(a) && a.rule == rule && a.basis == binds && a.timetag == old(data.currentTimetag)
      ensures a.randomID == randomID && a.salience == rule.salience
      ensures a.salience == Evaluation(old(rule.salience), !whenDefined && rule.hasDynamicSalience, evaluated)
      ensures p <= |old(acts)| && acts == Insert(old(acts), p, a)
      ensures data.strategy == Depth ==>
        forall i :: 0 <= i < |old(acts)| && old(acts)[i].salience == a.salience ==> p <= i
      ensures data.strategy == Breadth ==>
        forall i :: 0 <= i < |old(acts)| && old(acts)[i].salience == a.salience ==> i < p
      ensures data.strategy == Complexity ==>
        forall i :: 0 <= i < |old(acts)| && old(acts)[i].salience == a.salience ==>
          old(acts)[i].rule.complexity == rule.complexity ==> i < p
      ensures fresh(Members(groups) - old(Members(groups)))
    {
      hide Valid, MarkersFor, TagsFor;
      var salience := EvaluateSalience(rule, whenDefined, evaluated);
      ghost var s := acts;
      TagsOfActs();
      a, p := AddEvaluated(rule, binds, randomID, salience);
      NewIsPlaced(s, p, a);
    }

    lemma TagsOfActs()
      requires Valid() && TagsValid()
      ensures forall i :: 0 <= i < |acts| ==> acts[i].timetag < data.currentTimetag
    {
    }

    lemma NewIsPlaced(s: seq<Activation>, p: nat, a: Activation)
      requires Valid() && p <= |s| && acts == Insert(s, p, a)
      requires forall i :: 0 <= i < |s| ==> s[i].timetag < a.timetag
      ensures forall i :: 0 <= i < |s| && s[i].salience == a.salience ==>
        && (data.strategy == Depth ==> p <= i) && (data.strategy == Breadth ==> i < p)
        && (data.strategy == Complexity && s[i].rule.complexity == a.rule.complexity ==> i < p)
    {
      hide Ordered, DistinctTags, Linked, GroupsValid, Agrees, Before;
      var was := Remove(keys, p);
      assert keys == Insert(was, p, a.Key());
      assert forall i :: 0 <= i < |s| ==> acts[if i < p then i else i + 1] == s[i] && was[i] == s[i].Key();
      NewestGoes(data.strategy, was, p, a.Key());
    }

    /** What an activation has over those that come after it: a higher salience, or the same and what the
        strategy ranks by. */
    lemma StrategyRanks(i: nat, j: nat)
      requires Valid() && i < j < |acts|
      ensures acts[i].salience >= acts[j].salience
      ensures acts[i].salience == acts[j].salience ==>
        var a, b, strategy := acts[i], acts[j], data.strategy;
        var older := a.timetag < b.timetag;
        var lex := MoreRecent(a.basis.recency, b.basis.recency)
                   || (a.basis.recency == b.basis.recency
                       && (a.rule.complexity > b.rule.complexity || (a.rule.complexity == b.rule.complexity && older)));
        && (strategy == Depth ==> a.timetag > b.timetag)
        && (strategy == Breadth ==> older)
        && (strategy == Lex ==> lex)
        && (strategy == Mea ==>
              a.basis.firstTag > b.basis.firstTag || (a.basis.firstTag == b.basis.firstTag && lex))
        && (strategy == Complexity ==>
              a.rule.complexity > b.rule.complexity || (a.rule.complexity == b.rule.complexity && older))
        && (strategy == Simplicity ==>
              a.rule.complexity < b.rule.complexity || (a.rule.complexity == b.rule.complexity && older))
        && (strategy == Random ==> a.randomID < b.randomID || (a.randomID == b.randomID && older))
    {
      assert Before(data.strategy, keys[i], keys[j]) && TagsDiffer(keys[i], keys[j]);
      if acts[i].salience == acts[j].salience { WhatRanks(data.strategy, keys[i], keys[j]); }
    }

    lemma BooksAfterAdding(s: seq<Activation>, was: seq<Key>, p: nat, a: Activation)
      requires p <= |s| == |was| && acts == Insert(s, p, a) && keys == Insert(was, p, a.Key())
      requires MarkersFor(data.matches, s, others + {a}) && a.basis in data.matches && a.basis.marker == a
      requires TagsFor(was, others, a.timetag) && data.currentTimetag == a.timetag + 1
      ensures MarkersValid() && TagsValid()
    {
      MarkersInsert(data.matches, s, others, p, a);
      TagsInsert(was, others, a.timetag, p, a.Key());
    }

    lemma TagsBelow()
      requires TagsValid()
      ensures forall i :: 0 <= i < |keys| ==> keys[i].timetag != data.currentTimetag
    {
    }

    /** Takes `a` off and leaves it to nobody yet: the books that `a` was in. */
    method Withdraw(a: Activation, forFiring: bool, ghost p: nat, ghost others: set<Activation>)
      returns (ghost k: nat)
      requires Valid() && p < |acts| && acts[p] == a
      requires MarkersFor(data.matches, acts, others) && TagsFor(keys, others, data.currentTimetag)
      modifies `agenda, data`agendaChanged, `acts, `keys, acts`prev, acts`next
      modifies `groupings, `groups, `runs, groups
      ensures Valid() && data.agendaChanged
      ensures forFiring ==> a.prev == null && a.next == null
      ensures acts == Remove(old(acts), p) && keys == Remove(old(keys), p)
      ensures groups == old(groups) || (k < |old(groups)| && groups == Remove(old(groups), k))
      ensures MarkersFor(data.matches, acts, others + {a}) && TagsFor(keys, others + {a}, data.currentTimetag)
    {
      hide Linked, Agrees, GroupsValid, Ordered, MarkersFor, TagsFor;
      MarkersRemove(data.matches, acts, others, p);
      TagsRemove(acts, keys, others, data.currentTimetag, p);
      ghost var s, without := Remove(acts, p), others + {a};
      k := TakeOff(a, forFiring, p);
      assert MarkersFor(data.matches, s, without);
    }

    lemma NotDetached(p: nat)
      requires ListValid() && TagsValid() && p < |acts|
      ensures acts[p] !in others && |others + {acts[p]}| == |others| + 1
    {
      assert acts[p] in others ==> HasOtherTag(acts[p], keys[p].timetag);
    }

    lemma DetachedNotListed(a: Activation)
      requires ListValid() && TagsValid() && a in others
      ensures a !in acts
    {
      forall i | 0 <= i < |acts| ensures acts[i] != a {
        assert HasOtherTag(a, keys[i].timetag);
      }
    }

    /** Takes an activation off the agenda to fire it. */
    method DetachActivation(a: Activation, ghost p: nat) returns (ghost k: nat)
      requires Consistent() && p < |acts| && acts[p] == a
      modifies this, data`agendaChanged, acts`prev, acts`next, groups
      ensures Consistent() && data.agendaChanged
      ensures a.prev == null && a.next == null
      ensures acts == Remove(old(acts), p) && keys == Remove(old(keys), p)
      ensures others == old(others) + {a}
      ensures groups == old(groups) || (k < |old(groups)| && groups == Remove(old(groups), k))
    {
      hide ListValid, Agrees, GroupsValid, MarkersFor, TagsFor;
      NotDetached(p);
      ghost var before := others;
      others := others + {a};
      assert data.numberOfActivations + 1 == |acts| + |others|;
      ValidUntouched();
      k := Withdraw(a, true, p, before);
      assert data.numberOfActivations == |acts| + |others|;
    }

    /** Removes an activation from the agenda and returns it; its match may be
        activated again.  This is the call with both update flags set. */
    method RemoveActivation(a: Activation, ghost p: nat) returns (ghost k: nat)
      requires Consistent() && p < |acts| && acts[p] == a
      modifies this, data`agendaChanged, data`numberOfActivations, acts`prev, acts`next, groups, a.basis`marker
      ensures Consistent() && data.agendaChanged
      ensures a.basis.marker == null
      ensures acts == Remove(old(acts), p) && keys == Remove(old(keys), p)
      ensures others == old(others)
      ensures groups == old(groups) || (k < |old(groups)| && groups == Remove(old(groups), k))
    {
      hide MarkersFor, TagsFor, GroupsValid, Agrees, Linked, Ordered;
      MarkerOf(p);
      ListDistinct();
      RemovedIsGone(acts, p);
      data.numberOfActivations := data.numberOfActivations - 1;
      ValidUntouched();
      k := Withdraw(a, false, p, others);
      assert data.numberOfActivations == |acts| + |others|;
      Disown(a);
    }

    /** Breaks the link from the match of `a`, which is on no list any more. */
    method Disown(a: Activation)
      requires Valid() && MarkersFor(data.matches, acts, others + {a})
      requires TagsFor(keys, others + {a}, data.currentTimetag)
      requires a.basis in data.matches && a.basis.marker == a && a !in acts
      modifies a.basis`marker
      ensures Valid() && MarkersValid() && TagsValid() && a.basis.marker == null
    {
      a.basis.marker := null;
      ValidUntouched();
    }

    /** What the engine does before a rule fires: the activation leaves the agenda
        and its match forgets it, so that a refresh may activate it again. */
    method BeginFiring(a: Activation, ghost p: nat) returns (ghost k: nat)
      requires Consistent() && p < |acts| && acts[p] == a
      modifies this, data`agendaChanged, data`numberOfActivations, acts`prev, acts`next, groups, a.basis`marker
      ensures Consistent() && a.basis.marker == null
      ensures acts == Remove(old(acts), p) && others == old(others) + {a}
      ensures groups == old(groups) || (k < |old(groups)| && groups == Remove(old(groups), k))
    {
      k := DetachActivation(a, p);
      ClearMarker(a);
    }

    method ClearMarker(a: Activation)
      requires Consistent() && a in others && a.basis.marker == a
      modifies a.basis`marker
      ensures Consistent() && a.basis.marker == null
    {
      DetachedNotListed(a);
      a.basis.marker := null;
      ValidUntouched();
    }

    /** The walk of ClearRuleFromAgenda: `dot` is at position `n` of the list it began with. */
    ghost predicate ClearingAt(s: seq<Activation>, n: nat, dot: Activation?, rules: seq<Rule>)
      reads `acts
    {
      n <= |s| && dot == (if n == |s| then null else s[n]) && acts == Clearing(s, n, rules)
    }

    lemma Following(s: seq<Activation>, n: nat, dot: Activation, rules: seq<Rule>)
      requires Linked(agenda, acts) && ClearingAt(s, n, dot, rules) && n < |s|
      ensures |Without(s, n, rules)| < |acts| && acts[|Without(s, n, rules)|] == dot
      ensures dot.next == if n + 1 == |s| then null else s[n + 1]
    {
      var p := |Without(s, n, rules)|;
      assert n + 1 < |s| ==> acts[p + 1] == s[n + 1];
    }

    /** The activations elsewhere that their matches name are still named. */
    twostate predicate StillNamed()
      reads `others, (set b | b in others :: b.basis)`marker
    {
      forall b :: b in old(others) && b in others && old(b.basis.marker) == b ==> b.basis.marker == b
    }

    method RemoveMember(a: Activation, ghost p: nat)
      requires Consistent() && p < |acts| && acts[p] == a
      modifies this, data`agendaChanged, data`numberOfActivations
      modifies Members(acts)`prev, Members(acts)`next, Members(groups), data.matches`marker
      ensures Consistent() && acts == Remove(old(acts), p)
      ensures others == old(others) && StillNamed()
      ensures Members(groups) <= old(Members(groups)) && Members(acts) <= old(Members(acts))
    {
      ghost var was := groups;
      RemoveMembers(acts, p);
      NotDetached(p);
      ghost var k := RemoveActivation(a, p);
      if groups != was { RemoveMembers(was, k); }
    }

    /** One step: the next activation is remembered before `dot` goes. */
    method ClearOne(ghost s: seq<Activation>, ghost n: nat, dot: Activation, rules: seq<Rule>)
      returns (following: Activation?)
      requires Consistent() && ClearingAt(s, n, dot, rules) && n < |s|
      modifies this, data`agendaChanged, data`numberOfActivations
      modifies Members(acts)`prev, Members(acts)`next, Members(groups), data.matches`marker
      ensures Consistent() && ClearingAt(s, n + 1, following, rules)
      ensures others == old(others) && StillNamed()
      ensures Members(groups) <= old(Members(groups)) && Members(acts) <= old(Members(acts))
    {
      Following(s, n, dot, rules);
      following := dot.next;
      ClearingStep(s, n, rules);
      if dot.rule in rules {
        RemoveMember(dot, |Without(s, n, rules)|);
      }
    }

    /** Clears every activation of a rule's disjuncts from the agenda. */
    method ClearRuleFromAgenda(disjuncts: seq<Rule>)
      requires Consistent()
      modifies this, data`agendaChanged, data`numberOfActivations
      modifies Members(acts)`prev, Members(acts)`next, Members(groups), data.matches`marker
      ensures Consistent() && acts == Without(old(acts), |old(acts)|, disjuncts)
      ensures others == old(others) && StillNamed()
      ensures Members(groups) <= old(Members(groups)) && Members(acts) <= old(Members(acts))
    {
      ghost var s, n := acts, 0;
      var dot := agenda;
      assert ClearingAt(s, n, dot, disjuncts);
      hide Consistent, Members;
      while dot != null
        invariant Consistent() && ClearingAt(s, n, dot, disjuncts)
        invariant others == old(others) && StillNamed()
        invariant Members(groups) <= old(Members(groups)) && Members(acts) <= old(Members(acts))
        decreases |s| - n
      {
        dot := ClearOne(s, n, dot, disjuncts);
        n := n + 1;
      }
    }

    method RemoveFirstActivation(dot: Activation) returns (following: Activation?)
      requires Consistent() && acts != [] && acts[0] == dot
      modifies this, data`agendaChanged, data`numberOfActivations
      modifies Members(acts)`prev, Members(acts)`next, Members(groups), data.matches`marker
      ensures Consistent() && acts == old(acts)[1..]
      ensures following == if acts == [] then null else acts[0]
      ensures others == old(others) && StillNamed()
      ensures Members(groups) <= old(Members(groups)) && Members(acts) <= old(Members(acts))
    {
      following := dot.next;
      RemoveMember(dot, 0);
    }

    /** An empty agenda has no groups. */
    lemma NoGroups()
      requires Valid() && acts == []
      ensures groups == [] && groupings == null
    {
      assert groups != [] ==> Bounds(acts, SaliencesOf(keys), runs[0]);
    }

    /** Removes all activations.  The groups go with their last activations, so the walk
        over the groups that are left makes no turn. */
    method RemoveAllActivations() returns (ghost turns: nat)
      requires Consistent()
      modifies this, data`agendaChanged, data`numberOfActivations
      modifies Members(acts)`prev, Members(acts)`next, Members(groups), data.matches`marker
      ensures Consistent() && acts == [] && agenda == null && groupings == null && turns == 0
      ensures others == old(others) && StillNamed()
      ensures Members(groups) <= old(Members(groups)) && Members(acts) <= old(Members(acts))
    {
      var dot := agenda;
      while dot != null
        invariant Consistent() && dot == if acts == [] then null else acts[0]
        invariant others == old(others) && StillNamed()
        invariant Members(groups) <= old(Members(groups)) && Members(acts) <= old(Members(acts))
        decreases |acts|
      {
        dot := RemoveFirstActivation(dot);
      }
      var g := groupings;
      turns := 0;
      while g != null
        invariant turns <= |groups| && g == if turns == |groups| then null else groups[turns]
        decreases |groups| - turns
      {
        g := g.next;
        turns := turns + 1;
      }
      NoGroups();
    }

    /** What is left of the old list while it is placed back one by one. */
    ghost predicate Rest(s: seq<Activation>, n: nat, dot: Activation?)
      reads s`next
    {
      && n <= |s| && dot == (if n == |s| then null else s[n])
      && (forall i {:trigger s[i].next} :: n <= i < |s| ==> s[i].next == if i + 1 == |s| then null else s[i + 1])
    }

    /** The agenda so far holds exactly the first `n` of the old list. */
    ghost predicate Rebuilt(s: seq<Activation>, was: seq<Key>, n: nat)
      reads `acts, `keys
    {
      && n <= |s| == |was|
      && multiset(acts) == multiset(s[..n]) && multiset(keys) == multiset(was[..n])
    }

    lemma RebuiltStep(s: seq<Activation>, was: seq<Key>, n: nat, acts': seq<Activation>, keys': seq<Key>, p: nat)
      requires n < |s| == |was| && p <= |acts'| == |keys'|
      requires multiset(acts') == multiset(s[..n]) && multiset(keys') == multiset(was[..n])
      ensures multiset(Insert(acts', p, s[n])) == multiset(s[..n + 1])
      ensures multiset(Insert(keys', p, was[n])) == multiset(was[..n + 1])
    {
      InsertMultiset(acts', p, s[n]);
      InsertMultiset(keys', p, was[n]);
      assert s[..n + 1] == s[..n] + [s[n]] && was[..n + 1] == was[..n] + [was[n]];
    }

    /** The next activation of the old list is not on the agenda, nor is its tag. */
    lemma NotYetPlaced(s: seq<Activation>, was: seq<Key>, n: nat)
      requires Rebuilt(s, was, n) && n < |s| && Distinct(s) && DistinctTags(was)
      ensures s[n] !in acts && forall i :: 0 <= i < |keys| ==> keys[i].timetag != was[n].timetag
    {
      assert s[n] !in multiset(acts);
      forall i | 0 <= i < |keys| ensures keys[i].timetag != was[n].timetag {
        assert keys[i] in multiset(keys) && keys[i] in multiset(was[..n]);
        var j :| 0 <= j < n && was[j] == keys[i];
        assert TagsDiffer(was[j], was[n]);
      }
    }

    lemma RestApart(s: seq<Activation>, was: seq<Key>, n: nat)
      requires Rebuilt(s, was, n) && Distinct(s)
      ensures forall i :: n <= i < |s| ==> s[i] !in acts
    {
      forall i | n <= i < |s| ensures s[i] !in acts {
        assert s[i] !in multiset(acts);
      }
    }

    /** Cuts the next activation of the old list loose. */
    method CutLoose(dot: Activation, ghost s: seq<Activation>, ghost n: nat) returns (following: Activation?)
      requires Valid() && dot !in acts && n < |s| && Rest(s, n, dot) && Distinct(s)
      modifies dot`next, dot`prev
      ensures Valid() && Rest(s, n + 1, following) && dot.next == null && dot.prev == null
    {
      following := dot.next;
      dot.next := null;
      dot.prev := null;
      ValidUntouched();
    }

    /** Places an activation of the old list that was cut loose. */
    method PlaceLoose(dot: Activation, following: Activation?,
                      ghost s: seq<Activation>, ghost was: seq<Key>, ghost n: nat)
      requires Valid() && n < |s| == |was| && dot == s[n] && was[n] == dot.Key() && dot !in acts
      requires dot.next == null && dot.prev == null && Rest(s, n + 1, following) && Rebuilt(s, was, n)
      requires forall i :: 0 <= i < |keys| ==> keys[i].timetag != dot.timetag
      requires Distinct(s) && forall i :: n <= i < |s| ==> s[i] !in acts
      modifies `agenda, data`agendaChanged, `acts, `keys, acts`prev, acts`next, dot`prev, dot`next
      modifies `groupings, `groups, `runs, groups
      ensures Valid() && Rest(s, n + 1, following) && Rebuilt(s, was, n + 1)
      ensures fresh(Members(groups) - old(Members(groups)))
    {
      hide Valid;
      OneKeyEach();
      ghost var acts', keys' := acts, keys;
      ghost var p := PlaceNew(dot);
      RebuiltStep(s, was, n, acts', keys', p);
      assert forall i :: n < i < |s| ==> s[i].next == old(s[i].next);
    }

    /** Places the next activation of the old list back. */
    method PlaceBack(dot: Activation, ghost s: seq<Activation>, ghost was: seq<Key>, ghost n: nat)
      returns (following: Activation?)
      requires Valid() && KeysMatch(s, was) && DistinctTags(was)
      requires n < |s| && Rest(s, n, dot) && Rebuilt(s, was, n)
      modifies `agenda, data`agendaChanged, `acts, `keys, Members(s)`prev, Members(s)`next
      modifies `groupings, `groups, `runs, Members(groups)
      ensures Valid() && Rest(s, n + 1, following) && Rebuilt(s, was, n + 1)
      ensures fresh(Members(groups) - old(Members(groups)))
    {
      hide Valid, KeysMatch;
      KeyAt(s, was, n);
      KeysDistinct(s, was);
      NotYetPlaced(s, was, n);
      RestApart(s, was, n);
      MembersOf(s, was, n);
      following := CutLoose(dot, s, n);
      PlaceLoose(dot, following, s, was, n);
    }

    lemma MembersOf(s: seq<Activation>, was: seq<Key>, n: nat)
      requires Rebuilt(s, was, n)
      ensures Members(acts) <= Members(s)
    {
      forall a | a in acts ensures a in s {
        assert a in multiset(acts) && a in multiset(s[..n]);
      }
    }

    /** Forgets the list and the groups, to place everything again. */
    method Empty() returns (dot: Activation?)
      requires ListValid()
      modifies `agenda, `groupings, `acts, `keys, `groups, `runs
      ensures dot == old(agenda) && Valid() && acts == [] && groups == []
      ensures Rest(old(acts), 0, dot) && Rebuilt(old(acts), old(keys), 0)
    {
      ListDistinct();
      dot := agenda;
      agenda, groupings := null, null;
      acts, keys, groups, runs := [], [], [], [];
    }

    /** Places the activations of the old list back, one by one. */
    method PlaceAll(first: Activation?, ghost s: seq<Activation>, ghost was: seq<Key>)
      requires Valid() && Rest(s, 0, first) && Rebuilt(s, was, 0)
      requires KeysMatch(s, was) && DistinctTags(was) && groups == []
      modifies `agenda, data`agendaChanged, `acts, `keys, Members(s)`prev, Members(s)`next
      modifies `groupings, `groups, `runs
      ensures Valid() && Rebuilt(s, was, |s|)
      ensures fresh(Members(groups))
    {
      var dot := first;
      ghost var n := 0;
      hide Valid, Rebuilt;
      while dot != null
        invariant Valid() && Rest(s, n, dot) && Rebuilt(s, was, n)
        invariant fresh(Members(groups))
        decreases |s| - n
      {
        dot := PlaceBack(dot, s, was, n);
        n := n + 1;
      }
    }

    method Rebuild()
      requires ListValid()
      modifies `agenda, data`agendaChanged, `acts, `keys, Members(acts)`prev, Members(acts)`next
      modifies `groupings, `groups, `runs
      ensures Valid() && Rebuilt(old(acts), old(keys), |old(acts)|)
      ensures fresh(Members(groups))
    {
      ghost var s, was := acts, keys;
      var dot := Empty();
      PlaceAll(dot, s, was);
    }

    /** The books of a rebuilt list. */
    lemma BooksAfterRebuilding(s: seq<Activation>, was: seq<Key>)
      requires Rebuilt(s, was, |s|)
      requires MarkersFor(data.matches, s, others) && TagsFor(was, others, data.currentTimetag)
      ensures MarkersValid() && TagsValid() && |acts| == |s|
      ensures multiset(acts) == multiset(s) && multiset(keys) == multiset(was)
    {
      assert s[..|s|] == s && was[..|s|] == was;
      assert |acts| == |multiset(acts)| == |multiset(s)| == |s|;
      MarkersPermute(data.matches, s, acts, others);
      TagsPermute(was, keys, others, data.currentTimetag);
    }

    /** Places every activation again under the current strategy.  Only the links and
        the time tags of the old list are relied on: its order may be anything, and
        its groups, which may be stale, are thrown away. */
    method EnvReorderAgenda()
      requires ListValid() && MarkersValid() && TagsValid() && data.numberOfActivations == |acts| + |others|
      modifies `agenda, data`agendaChanged, `acts, `keys, Members(acts)`prev, Members(acts)`next
      modifies `groupings, `groups, `runs
      ensures Consistent()
      ensures multiset(acts) == multiset(old(acts)) && multiset(keys) == multiset(old(keys))
      ensures fresh(Members(groups))
    {
      hide Valid, ListValid, Rebuilt, TagsFor;
      ghost var s, was := acts, keys;
      Rebuild();
      assert MarkersFor(data.matches, s, others);
      BooksAfterRebuilding(s, was);
      assert data.numberOfActivations == |acts| + |others|;
    }

    /** Overwrites the salience of one activation; the groups do not follow. */
    method RecomputeOne(dot: Activation, evaluated: Evaluated, ghost i: nat) returns (following: Activation?)
      requires ListValid() && TagsValid() && i < |acts| && acts[i] == dot
      modifies `keys, dot`salience, dot.rule`salience
      ensures ListValid() && TagsValid()
      ensures following == if i + 1 == |acts| then null else acts[i + 1]
      ensures dot.rule.salience == dot.salience
      ensures dot.salience == Evaluation(old(dot.rule.salience), dot.rule.hasDynamicSalience, evaluated)
    {
      ListDistinct();
      following := dot.next;
      dot.salience := EvaluateSalience(dot.rule, false, evaluated);
      KeysOverwritten(keys, keys[i := keys[i].(salience := dot.salience)], others, data.currentTimetag);
      keys := keys[i := keys[i].(salience := dot.salience)];
    }

    static lemma KeysOverwritten(keys: seq<Key>, keys': seq<Key>, others: set<Activation>, next: nat)
      requires |keys'| == |keys| && forall i :: 0 <= i < |keys| ==> keys'[i].timetag == keys[i].timetag
      requires DistinctTags(keys) && TagsFor(keys, others, next)
      ensures DistinctTags(keys') && TagsFor(keys', others, next)
    {
      forall i, j | 0 <= i < j < |keys'| ensures TagsDiffer(keys'[i], keys'[j]) {
        assert TagsDiffer(keys[i], keys[j]);
      }
    }

    method RecomputeNext(dot: Activation, evaluated: nat -> Evaluated, i: nat, ghost before: map<Rule, int>)
      returns (following: Activation?)
      requires ListValid() && TagsValid() && i < |acts| && acts[i] == dot
      requires Recomputed(acts, i, evaluated, before)
      modifies `keys, dot`salience, dot.rule`salience
      ensures ListValid() && TagsValid() && Recomputed(acts, i + 1, evaluated, before)
      ensures following == if i + 1 == |acts| then null else acts[i + 1]
    {
      hide ListValid, TagsFor;
      ListDistinct();
      following := RecomputeOne(dot, evaluated(i), i);
    }

    /** Overwrites every salience while the group index stays as it was. */
    method RecomputeSaliences(evaluated: nat -> Evaluated, ghost before: map<Rule, int>)
      requires ListValid() && TagsValid() && Recomputed(acts, 0, evaluated, before)
      modifies `keys, Members(acts)`salience, RulesOf(acts)`salience
      ensures ListValid() && TagsValid() && Recomputed(acts, |acts|, evaluated, before)
    {
      var dot := agenda;
      var i := 0;
      while dot != null
        invariant i <= |acts| && dot == if i == |acts| then null else acts[i]
        invariant ListValid() && TagsValid() && Recomputed(acts, i, evaluated, before)
        decreases |acts| - i
      {
        dot := RecomputeNext(dot, evaluated, i, before);
        i := i + 1;
      }
    }

    /** Re-evaluates the salience of every activation and places them all again.  An
        evaluation that fails leaves what earlier activations gave the rule. */
    method EnvRefreshAgenda(evaluated: nat -> Evaluated, ghost before: map<Rule, int>)
      requires Consistent() && RulesHave(before, RulesOf(acts))
      modifies `agenda, data`agendaChanged, `acts, `keys, `groupings, `groups, `runs
      modifies Members(acts)`prev, Members(acts)`next, Members(acts)`salience, RulesOf(acts)`salience
      ensures Consistent()
      ensures multiset(acts) == multiset(old(acts)) && fresh(Members(groups))
      ensures Recomputed(old(acts), |old(acts)|, evaluated, before)
    {
      hide ListValid, MarkersFor, TagsFor, Recomputed;
      RecomputedNone(acts, evaluated, before);
      RecomputeSaliences(evaluated, before);
      assert MarkersValid();
      EnvReorderAgenda();
    }

    lemma MarkerOf(p: nat)
      requires Consistent() && p < |acts|
      ensures acts[p].basis.marker == acts[p] && acts[p].basis in data.matches
    {
    }

    /** Adds an activation; what the agenda owns grows only by new objects. */
    method AddGrowing(rule: Rule, binds: PartialMatch, randomID: int, whenDefined: bool, evaluated: Evaluated)
      returns (a: Activation, ghost p: nat)
      requires Consistent() && binds.marker == null
      modifies `agenda, data`agendaChanged, `acts, `keys, `groupings, `groups, `runs,
        data`matches, data`numberOfActivations, data`currentTimetag
      modifies Members(acts)`prev, Members(acts)`next, Members(groups), binds`marker, rule`salience
      ensures Consistent() && fresh(a) && binds.marker == a
      ensures Members(acts) == old(Members(acts)) + {a} && fresh(Members(groups) - old(Members(groups)))
      ensures a.rule == rule && a.basis == binds && old(data.matches) <= data.matches
    {
      hide Consistent;
      ghost var a0 := acts;
      a, p := AddActivation(rule, binds, randomID, whenDefined, evaluated);
      InsertMembers(a0, p, a);
      MarkerOf(p);
    }

    /** Nothing on the agenda or in its books has changed. */
    twostate predicate Idle()
      reads this, data, acts, groups
    {
      unchanged(this) && unchanged(data) && unchanged(acts) && unchanged(groups)
    }

    /** One match of a rule that is refreshed. */
    method RefreshMatch(rule: Rule, m: PartialMatch, randomID: int, whenDefined: bool, evaluated: Evaluated)
      requires Consistent()
      modifies `agenda, data`agendaChanged, `acts, `keys, `groupings, `groups, `runs,
        data`matches, data`numberOfActivations, data`currentTimetag
      modifies Members(acts)`prev, Members(acts)`next, Members(groups), m`marker, rule`salience
      ensures Consistent()
      ensures m.activatesRule ==> m.marker != null
      ensures m.marker == old(m.marker) || (old(m.marker) == null && m.activatesRule && fresh(m.marker))
      ensures fresh(Members(acts) - old(Members(acts))) && fresh(Members(groups) - old(Members(groups)))
      ensures old(Members(acts)) <= Members(acts) && old(data.matches) <= data.matches
      ensures forall a :: a in Members(acts) - old(Members(acts)) ==> a.basis == m && a.rule == rule
      ensures old(m.marker) != null || !m.activatesRule ==>
        Idle() && m.marker == old(m.marker) && rule.salience == old(rule.salience)
    {
      hide Consistent;
      if m.activatesRule {
        if m.marker == null {
          var a; ghost var p;
          a, p := AddGrowing(rule, m, randomID, whenDefined, evaluated);
        }
      }
    }

    /** The next match of a bucket. */
    method RefreshNext(rule: Rule, ms: seq<PartialMatch>, n: nat, randomID: int, whenDefined: bool,
                       evaluated: Evaluated)
      requires Consistent() && n < |ms| && ActivatedTo(ms, n)
      modifies `agenda, data`agendaChanged, `acts, `keys, `groupings, `groups, `runs,
        data`matches, data`numberOfActivations, data`currentTimetag
      modifies Members(acts)`prev, Members(acts)`next, Members(groups), Members(ms)`marker, rule`salience
      ensures Consistent() && ActivatedTo(ms, n + 1)
      ensures forall m :: m in ms ==>
        m.marker == old(m.marker) || (old(m.marker) == null && m.activatesRule && fresh(m.marker))
      ensures fresh(Members(acts) - old(Members(acts))) && fresh(Members(groups) - old(Members(groups)))
      ensures old(Members(acts)) <= Members(acts) && old(data.matches) <= data.matches
      ensures forall a :: a in Members(acts) - old(Members(acts)) ==> a.basis in ms && a.rule == rule
      ensures old(Activated(ms)) ==> Idle() && rule.salience == old(rule.salience)
                                     && forall m :: m in ms ==> m.marker == old(m.marker)
    {
      hide Consistent;
      RefreshMatch(rule, ms[n], randomID, whenDefined, evaluated);
    }

    /** One bucket of a rule's memory of complete matches. */
    method RefreshBucket(rule: Rule, ms: seq<PartialMatch>, random: nat -> int, whenDefined: bool,
                         evaluated: nat -> Evaluated)
      requires Consistent()
      modifies `agenda, data`agendaChanged, `acts, `keys, `groupings, `groups, `runs,
        data`matches, data`numberOfActivations, data`currentTimetag
      modifies Members(acts)`prev, Members(acts)`next, Members(groups), Members(ms)`marker, rule`salience
      ensures Consistent() && Activated(ms)
      ensures forall m :: m in ms ==>
        m.marker == old(m.marker) || (old(m.marker) == null && m.activatesRule && fresh(m.marker))
      ensures fresh(Members(acts) - old(Members(acts))) && fresh(Members(groups) - old(Members(groups)))
      ensures old(Members(acts)) <= Members(acts) && old(data.matches) <= data.matches
      ensures forall a :: a in Members(acts) - old(Members(acts)) ==> a.basis in ms && a.rule == rule
      ensures old(Activated(ms)) ==> Idle() && rule.salience == old(rule.salience)
                                     && forall m :: m in ms ==> m.marker == old(m.marker)
    {
      hide Consistent;
      for n := 0 to |ms|
        invariant Consistent() && ActivatedTo(ms, n)
        invariant forall m :: m in ms ==>
          m.marker == old(m.marker) || (old(m.marker) == null && m.activatesRule && fresh(m.marker))
        invariant fresh(Members(acts) - old(Members(acts))) && fresh(Members(groups) - old(Members(groups)))
        invariant old(Members(acts)) <= Members(acts) && old(data.matches) <= data.matches
        invariant forall a :: a in Members(acts) - old(Members(acts)) ==> a.basis in ms && a.rule == rule
        invariant old(Activated(ms)) ==> Idle() && rule.salience == old(rule.salience) && Activated(ms)
                                         && forall m :: m in ms ==> m.marker == old(m.marker)
      {
        RefreshNext(rule, ms, n, random(data.currentTimetag), whenDefined, evaluated(data.currentTimetag));
      }
    }

    /** The next disjunct of a rule. */
    method RefreshDisjunct(ds: seq<Disjunct>, n: nat, random: nat -> int, whenDefined: bool,
                           evaluated: nat -> Evaluated)
      requires Consistent() && n < |ds| && AllActivated(ds, n)
      modifies `agenda, data`agendaChanged, `acts, `keys, `groupings, `groups, `runs,
        data`matches, data`numberOfActivations, data`currentTimetag
      modifies Members(acts)`prev, Members(acts)`next, Members(groups)
      modifies MatchesOf(ds)`marker, DisjunctRules(ds)`salience
      ensures Consistent() && AllActivated(ds, n + 1)
      ensures forall m :: m in MatchesOf(ds) ==>
        m.marker == old(m.marker) || (old(m.marker) == null && m.activatesRule && fresh(m.marker))
      ensures fresh(Members(acts) - old(Members(acts))) && fresh(Members(groups) - old(Members(groups)))
      ensures old(Members(acts)) <= Members(acts) && old(data.matches) <= data.matches
      ensures forall a :: a in Members(acts) - old(Members(acts)) ==> IsFor(a, ds)
      ensures old(AllActivated(ds, |ds|)) ==>
        && Idle() && AllActivated(ds, |ds|) && (forall m :: m in MatchesOf(ds) ==> m.marker == old(m.marker))
        && forall r :: r in DisjunctRules(ds) ==> r.salience == old(r.salience)
    {
      hide Consistent, Activated, AllActivated;
      DisjunctMembers(ds, n);
      ActivatedHaveMarkers(ds, n);
      ActivatedHaveMarkers(ds, |ds|);
      ghost var before := WithMarker(ds);
      RefreshBucket(ds[n].rule, ds[n].matches, random, whenDefined, evaluated);
      assert before <= WithMarker(ds);
      ActivatedHaveMarkers(ds, n);
      ActivatedHaveMarkers(ds, |ds|);
      ActivatedNext(ds, n);
    }

    /** Refreshes a rule: each of its matches that can activate it and has no activation
        gets a new one, and nothing else is added.  When there is no such match nothing
        at all changes. */
    method EnvRefresh(ds: seq<Disjunct>, random: nat -> int, whenDefined: bool, evaluated: nat -> Evaluated)
      requires Consistent()
      modifies `agenda, data`agendaChanged, `acts, `keys, `groupings, `groups, `runs,
        data`matches, data`numberOfActivations, data`currentTimetag
      modifies Members(acts)`prev, Members(acts)`next, Members(groups)
      modifies MatchesOf(ds)`marker, DisjunctRules(ds)`salience
      ensures Consistent() && AllActivated(ds, |ds|)
      ensures forall m :: m in MatchesOf(ds) ==>
        m.marker == old(m.marker) || (old(m.marker) == null && m.activatesRule && fresh(m.marker))
      ensures fresh(Members(acts) - old(Members(acts))) && fresh(Members(groups) - old(Members(groups)))
      ensures old(Members(acts)) <= Members(acts) && old(data.matches) <= data.matches
      ensures forall a :: a in Members(acts) - old(Members(acts)) ==> IsFor(a, ds)
      ensures old(AllActivated(ds, |ds|)) ==>
        && Idle() && (forall m :: m in MatchesOf(ds) ==> m.marker == old(m.marker))
        && forall r :: r in DisjunctRules(ds) ==> r.salience == old(r.salience)
    {
      hide Consistent, Activated, AllActivated, Valid;
      NoneNeeded(ds);
      for n := 0 to |ds|
        invariant Consistent() && AllActivated(ds, n)
        invariant forall m :: m in MatchesOf(ds) ==>
          m.marker == old(m.marker) || (old(m.marker) == null && m.activatesRule && fresh(m.marker))
        invariant fresh(Members(acts) - old(Members(acts))) && fresh(Members(groups) - old(Members(groups)))
        invariant old(Members(acts)) <= Members(acts) && old(data.matches) <= data.matches
        invariant forall a :: a in Members(acts) - old(Members(acts)) ==> IsFor(a, ds)
        invariant old(AllActivated(ds, |ds|)) ==>
          && Idle() && AllActivated(ds, |ds|) && (forall m :: m in MatchesOf(ds) ==> m.marker == old(m.marker))
          && forall r :: r in DisjunctRules(ds) ==> r.salience == old(r.salience)
      {
        RefreshDisjunct(ds, n, random, whenDefined, evaluated);
      }
    }

    /** After a refresh, refreshing again leaves the agenda, its groups, every marker and
        every salience as they are: what a first refresh ensures is required here. */
    method EnvRefreshAgain(ds: seq<Disjunct>, random: nat -> int, whenDefined: bool, evaluated: nat -> Evaluated)
      requires Consistent() && AllActivated(ds, |ds|)
      modifies `agenda, data`agendaChanged, `acts, `keys, `groupings, `groups, `runs,
        data`matches, data`numberOfActivations, data`currentTimetag
      modifies Members(acts)`prev, Members(acts)`next, Members(groups)
      modifies MatchesOf(ds)`marker, DisjunctRules(ds)`salience
      ensures Consistent() && Idle()
      ensures forall m :: m in MatchesOf(ds) ==> m.marker == old(m.marker)
      ensures forall r :: r in DisjunctRules(ds) ==> r.salience == old(r.salience)
    {
      EnvRefresh(ds, random, whenDefined, evaluated);
    }

    /** The clear command starts the time tags over once nothing uses them. */
    method AgendaClearFunction()
      requires Consistent() && acts == [] && others == {}
      modifies data`currentTimetag
      ensures Consistent() && data.currentTimetag == 0
    {
      data.currentTimetag := 0;
      ValidUntouched();
    }

    /** The list is exactly the first..last stretches of the groups, in their order. */
    lemma AgendaIsItsGroups()
      requires Valid()
      ensures Concatenation(acts, runs, 0) == acts
      ensures forall k :: 0 <= k < |groups| ==> runs[k] == Run(groups[k].salience, groups[k].first, groups[k].last)
      ensures groups == [] <==> acts == []
    {
      ListDistinct();
      OrderedSaliences(data.strategy, keys);
      ListIsConcatenation(acts, SaliencesOf(keys), runs);
      if acts == [] {
        NoGroups();
      }
      assert acts != [] ==> SaliencesOf(keys)[0] in Saliences(runs);
    }
  }

  lemma RemoveMultiset<T>(s: seq<T>, p: nat)
    requires p < |s|
    ensures multiset(s) == multiset(Remove(s, p)) + multiset{s[p]}
  {
    assert s == s[..p] + [s[p]] + s[p + 1..] && Remove(s, p) == s[..p] + s[p + 1..];
  }

  lemma {:induction false} SameKeys(s: seq<Activation>, t: seq<Activation>, ks: seq<Key>, kt: seq<Key>)
    requires KeysMatch(s, ks) && KeysMatch(t, kt) && multiset(s) == multiset(t)
    ensures multiset(ks) == multiset(kt)
    decreases |s|
  {
    hide KeysMatch, Remove;
    if s == [] {
      assert |multiset(t)| == 0;
      NoKeys(s, ks);
      NoKeys(t, kt);
    } else {
      assert s[0] in multiset(t);
      var j :| 0 <= j < |t| && t[j] == s[0];
      RemoveMultiset(s, 0);
      RemoveMultiset(t, j);
      assert multiset(Remove(s, 0)) == multiset(s) - multiset{s[0]};
      assert multiset(Remove(t, j)) == multiset(t) - multiset{s[0]};
      KeyAt(s, ks, 0);
      KeyAt(t, kt, j);
      RemoveMultiset(ks, 0);
      RemoveMultiset(kt, j);
      KeysMatchRemove(s, ks, 0);
      KeysMatchRemove(t, kt, j);
      SameKeys(Remove(s, 0), Remove(t, j), Remove(ks, 0), Remove(kt, j));
    }
  }

  lemma NoKeys(s: seq<Activation>, keys: seq<Key>)
    requires KeysMatch(s, keys) && |s| == 0
    ensures keys == []
  {
  }

  lemma KeyAt(s: seq<Activation>, keys: seq<Key>, i: nat)
    requires KeysMatch(s, keys) && i < |s|
    ensures |keys| == |s| && keys[i] == s[i].Key()
    ensures |Remove(s, i)| == |s| - 1
  {
  }

  /** Two agendas under one strategy that hold the same activations list them alike. */
  lemma AgendaIsDetermined(one: ModuleAgenda, other: ModuleAgenda)
    requires one.Valid() && other.Valid() && one.data.strategy == other.data.strategy
    requires multiset(one.acts) == multiset(other.acts)
    ensures one.acts == other.acts
  {
    SameKeys(one.acts, other.acts, one.keys, other.keys);
    OrderedUnique(one.data.strategy, one.keys, other.keys);
    SameMembers(one.acts, other.acts);
    KeysFixOrder(one.acts, other.acts, one.keys);
  }
}
