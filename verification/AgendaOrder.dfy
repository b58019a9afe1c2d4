/** The order in which the conflict resolution strategies keep the activations
    of one agenda: first by salience, then by the chosen strategy.  The order is
    strict and total on activations with different time tags, so a set of
    activations has exactly one ordered agenda. */
module AgendaOrder {
  import opened SalienceIndex

  datatype Strategy = Depth | Breadth | Lex | Mea | Complexity | Simplicity | Random

  /** Time tag of the entity matched by the first pattern; -1 when there is none. */
  type FirstTag = t: int | t == -1 || 0 < t witness -1

  /** Everything the strategies look at: `recency` holds the time tags of the
      basis, largest first. */
  datatype Key = Key(salience: int, timetag: nat, complexity: int, randomID: int,
                     recency: seq<nat>, firstTag: FirstTag)

  datatype Comparison = LessThan | GreaterThan | Equal

  /** Lexicographic comparison of `added` against `existing`; a proper prefix is less. */
  function CompareRecency(existing: seq<nat>, added: seq<nat>): Comparison {
    if existing == [] then (if added == [] then Equal else GreaterThan)
    else if added == [] then LessThan
    else if added[0] < existing[0] then LessThan
    else if added[0] > existing[0] then GreaterThan
    else CompareRecency(existing[1..], added[1..])
  }

  function ComparePartialMatches(existing: Key, added: Key): Comparison {
    match CompareRecency(existing.recency, added.recency)
    case LessThan => LessThan
    case GreaterThan => GreaterThan
    case Equal =>
      if added.complexity < existing.complexity then LessThan
      else if added.complexity > existing.complexity then GreaterThan
      else Equal
  }

  /** Does `existing` stay ahead of `added`, both of one salience? */
  predicate StaysAhead(strategy: Strategy, existing: Key, added: Key) {
    match strategy
    case Depth => added.timetag < existing.timetag
    case Breadth => !(added.timetag < existing.timetag)
    case Lex => LexAhead(existing, added)
    case Mea =>
      if existing.firstTag < added.firstTag then false
      else if existing.firstTag > added.firstTag then true
      else LexAhead(existing, added)
    case Complexity =>
      added.complexity < existing.complexity
      || (added.complexity == existing.complexity && added.timetag > existing.timetag)
    case Simplicity =>
      added.complexity > existing.complexity
      || (added.complexity == existing.complexity && added.timetag > existing.timetag)
    case Random =>
      added.randomID > existing.randomID
      || (added.randomID == existing.randomID && added.timetag > existing.timetag)
  }

  predicate LexAhead(existing: Key, added: Key) {
    match ComparePartialMatches(existing, added)
    case LessThan => true
    case GreaterThan => false
    case Equal => added.timetag > existing.timetag
  }

  /** The order of an agenda. */
  predicate Before(strategy: Strategy, a: Key, b: Key) {
    a.salience > b.salience || (a.salience == b.salience && StaysAhead(strategy, a, b))
  }

  ghost predicate Ordered(strategy: Strategy, keys: seq<Key>) {
    forall i, j {:trigger Before(strategy, keys[i], keys[j])} :: 0 <= i < j < |keys| ==>
      Before(strategy, keys[i], keys[j])
  }

  predicate TagsDiffer(a: Key, b: Key) {
    a.timetag != b.timetag
  }

  ghost predicate DistinctTags(keys: seq<Key>) {
    forall i, j {:trigger TagsDiffer(keys[i], keys[j])} :: 0 <= i < j < |keys| ==> TagsDiffer(keys[i], keys[j])
  }

  function SaliencesOf(keys: seq<Key>): (sal: seq<int>)
    ensures |sal| == |keys| && forall i :: 0 <= i < |keys| ==> sal[i] == keys[i].salience
  {
    seq(|keys|, i requires 0 <= i < |keys| => keys[i].salience)
  }

  // ----- the order is strict and total -----

  lemma {:induction false} RecencyAntisymmetric(a: seq<nat>, b: seq<nat>)
    ensures CompareRecency(a, b) == LessThan <==> CompareRecency(b, a) == GreaterThan
    ensures CompareRecency(a, b) == Equal <==> a == b
  {
    if a != [] && b != [] && a[0] == b[0] {
      RecencyAntisymmetric(a[1..], b[1..]);
      assert a == [a[0]] + a[1..] && b == [b[0]] + b[1..];
    }
  }

  lemma {:induction false} RecencyTransitive(a: seq<nat>, b: seq<nat>, c: seq<nat>)
    requires CompareRecency(a, b) == LessThan && CompareRecency(b, c) == LessThan
    ensures CompareRecency(a, c) == LessThan
  {
    if b != [] && c != [] && a[0] == b[0] == c[0] {
      RecencyTransitive(a[1..], b[1..], c[1..]);
    }
  }

  lemma {:induction false} BeforeTotal(strategy: Strategy, a: Key, b: Key)
    requires a.timetag != b.timetag
    ensures Before(strategy, a, b) <==> !Before(strategy, b, a)
  {
    RecencyAntisymmetric(a.recency, b.recency);
    RecencyAntisymmetric(b.recency, a.recency);
  }

  lemma {:induction false} BeforeTransitive(strategy: Strategy, a: Key, b: Key, c: Key)
    requires Before(strategy, a, b) && Before(strategy, b, c)
    ensures Before(strategy, a, c)
  {
    RecencyAntisymmetric(a.recency, b.recency);
    RecencyAntisymmetric(b.recency, c.recency);
    if CompareRecency(a.recency, b.recency) == LessThan && CompareRecency(b.recency, c.recency) == LessThan {
      RecencyTransitive(a.recency, b.recency, c.recency);
    }
  }

  // ----- what the strategies rank by -----

  /** The tags of `a` are those of `b` up to a place where `a` has the later tag or `b` has ended. */
  ghost predicate MoreRecent(a: seq<nat>, b: seq<nat>) {
    exists n :: 0 <= n < |a| && n <= |b| && a[..n] == b[..n] && (n == |b| || a[n] > b[n])
  }

  lemma {:induction false} RecencyIs(a: seq<nat>, b: seq<nat>)
    ensures CompareRecency(a, b) == LessThan ==> MoreRecent(a, b)
    ensures CompareRecency(a, b) == GreaterThan ==> MoreRecent(b, a)
  {
    if a != [] && b != [] && a[0] == b[0] {
      RecencyIs(a[1..], b[1..]);
      if MoreRecent(a[1..], b[1..]) { LongerPrefix(a, b); }
      if MoreRecent(b[1..], a[1..]) { LongerPrefix(b, a); }
    } else {
      assert a[..0] == b[..0];
    }
  }

  lemma LongerPrefix(a: seq<nat>, b: seq<nat>)
    requires a != [] && b != [] && a[0] == b[0] && MoreRecent(a[1..], b[1..])
    ensures MoreRecent(a, b)
  {
    var n :| 0 <= n < |a[1..]| && n <= |b[1..]| && a[1..][..n] == b[1..][..n]
             && (n == |b[1..]| || a[1..][n] > b[1..][n]);
    assert a[..n + 1] == [a[0]] + a[1..][..n] && b[..n + 1] == [b[0]] + b[1..][..n];
  }

  /** The lex order: more recent matches first, then more complex rules, then older activations. */
  ghost predicate LexRanks(a: Key, b: Key) {
    || MoreRecent(a.recency, b.recency)
    || (a.recency == b.recency
        && (a.complexity > b.complexity || (a.complexity == b.complexity && a.timetag < b.timetag)))
  }

  /** Of two activations of one salience, what the first one has over the second under each strategy. */
  lemma {:induction false} WhatRanks(strategy: Strategy, a: Key, b: Key)
    requires Before(strategy, a, b) && a.salience == b.salience && a.timetag != b.timetag
    ensures strategy == Depth ==> a.timetag > b.timetag
    ensures strategy == Breadth ==> a.timetag < b.timetag
    ensures strategy == Lex ==> LexRanks(a, b)
    ensures strategy == Mea ==> a.firstTag > b.firstTag || (a.firstTag == b.firstTag && LexRanks(a, b))
    ensures strategy == Complexity ==>
      a.complexity > b.complexity || (a.complexity == b.complexity && a.timetag < b.timetag)
    ensures strategy == Simplicity ==>
      a.complexity < b.complexity || (a.complexity == b.complexity && a.timetag < b.timetag)
    ensures strategy == Random ==>
      a.randomID < b.randomID || (a.randomID == b.randomID && a.timetag < b.timetag)
  {
    RecencyIs(a.recency, b.recency);
    RecencyAntisymmetric(a.recency, b.recency);
  }

  /** A new activation, whose tag is the latest, goes before all others of its salience under depth, after all of
      them under breadth, and after those of its complexity under complexity. */
  lemma NewestGoes(strategy: Strategy, s: seq<Key>, p: nat, k: Key)
    requires p <= |s| && Ordered(strategy, Insert(s, p, k)) && forall i :: 0 <= i < |s| ==> s[i].timetag < k.timetag
    ensures forall i :: 0 <= i < |s| && s[i].salience == k.salience ==>
      && (strategy == Depth ==> p <= i) && (strategy == Breadth ==> i < p)
      && (strategy == Complexity && s[i].complexity == k.complexity ==> i < p)
  {
    var t := Insert(s, p, k);
    forall i | 0 <= i < |s| && s[i].salience == k.salience
      ensures (strategy == Depth ==> p <= i) && (strategy == Breadth ==> i < p)
      ensures strategy == Complexity && s[i].complexity == k.complexity ==> i < p
    {
      if i < p {
        assert t[i] == s[i] && Before(strategy, t[i], t[p]);
        WhatRanks(strategy, s[i], k);
      } else {
        assert t[i + 1] == s[i] && Before(strategy, t[p], t[i + 1]);
        WhatRanks(strategy, k, s[i]);
      }
    }
  }

  lemma SameMultisetTails<T>(s: seq<T>, t: seq<T>)
    requires s != [] && t != [] && s[0] == t[0]
    requires multiset(s) == multiset(t)
    ensures multiset(s[1..]) == multiset(t[1..])
  {
    assert s == [s[0]] + s[1..] && t == [t[0]] + t[1..];
    assert multiset(s[1..]) == multiset(s) - multiset{s[0]};
  }

  lemma IndexOf<T>(x: T, s: seq<T>, t: seq<T>) returns (i: nat)
    requires x in s && multiset(s) == multiset(t)
    ensures i < |t| && t[i] == x
  {
    assert x in multiset(s) && x in multiset(t);
    i :| i < |t| && t[i] == x;
  }

  lemma {:induction false} FirstIsSame(strategy: Strategy, s: seq<Key>, t: seq<Key>)
    requires s != [] && t != []
    requires Ordered(strategy, s) && Ordered(strategy, t) && DistinctTags(s)
    requires multiset(s) == multiset(t)
    ensures s[0] == t[0]
  {
    var j := IndexOf(s[0], s, t);
    var i := IndexOf(t[0], t, s);
    if i > 0 {
      assert TagsDiffer(s[0], s[i]) && Before(strategy, s[0], s[i]);
      BeforeTotal(strategy, s[0], s[i]);
    }
  }

  /** Two agendas ordered by one strategy that hold the same activations are the
      same list: the contents of an ordered agenda determine it. */
  lemma {:induction false} OrderedUnique(strategy: Strategy, s: seq<Key>, t: seq<Key>)
    requires Ordered(strategy, s) && Ordered(strategy, t)
    requires DistinctTags(s)
    requires multiset(s) == multiset(t)
    ensures s == t
  {
    assert |s| == |multiset(s)| == |multiset(t)| == |t|;
    if s != [] {
      FirstIsSame(strategy, s, t);
      SameMultisetTails(s, t);
      OrderedUnique(strategy, s[1..], t[1..]);
      assert s == [s[0]] + s[1..] && t == [t[0]] + t[1..];
    }
  }

  lemma OrderedSaliences(strategy: Strategy, keys: seq<Key>)
    requires Ordered(strategy, keys)
    ensures forall i, j :: 0 <= i < j < |keys| ==> SaliencesOf(keys)[i] >= SaliencesOf(keys)[j]
  {
    forall i, j | 0 <= i < j < |keys| ensures SaliencesOf(keys)[i] >= SaliencesOf(keys)[j] {
      assert Before(strategy, keys[i], keys[j]);
    }
  }

  lemma InsertDistinctTags(s: seq<Key>, p: nat, k: Key)
    requires p <= |s| && DistinctTags(s) && forall i :: 0 <= i < |s| ==> s[i].timetag != k.timetag
    ensures DistinctTags(Insert(s, p, k))
  {
    var t := Insert(s, p, k);
    forall i, j | 0 <= i < j < |t| ensures TagsDiffer(t[i], t[j]) {
      if i != p && j != p {
        assert TagsDiffer(s[if i < p then i else i - 1], s[if j < p then j else j - 1]);
      }
    }
  }

  lemma RemoveDistinctTags(s: seq<Key>, p: nat)
    requires p < |s| && DistinctTags(s)
    ensures DistinctTags(Remove(s, p))
  {
    var t := Remove(s, p);
    forall i, j | 0 <= i < j < |t| ensures TagsDiffer(t[i], t[j]) {
      assert TagsDiffer(s[if i < p then i else i + 1], s[if j < p then j else j + 1]);
    }
  }

  lemma RemoveOrdered(strategy: Strategy, s: seq<Key>, p: nat)
    requires p < |s| && Ordered(strategy, s)
    ensures Ordered(strategy, Remove(s, p))
  {
    var t := Remove(s, p);
    forall i, j | 0 <= i < j < |t| ensures Before(strategy, t[i], t[j]) {
      assert Before(strategy, s[if i < p then i else i + 1], s[if j < p then j else j + 1]);
    }
  }

  /** An insertion point that splits an ordered agenda around `k` keeps it ordered. */
  lemma InsertOrdered(strategy: Strategy, s: seq<Key>, p: nat, k: Key)
    requires p <= |s| && Ordered(strategy, s)
    requires forall i :: 0 <= i < p ==> Before(strategy, s[i], k)
    requires forall i :: p <= i < |s| ==> Before(strategy, k, s[i])
    ensures Ordered(strategy, Insert(s, p, k))
  {
    var t := Insert(s, p, k);
    forall i, j | 0 <= i < j < |t| ensures Before(strategy, t[i], t[j]) {
      assert i < p ==> t[i] == s[i];
      assert j > p ==> t[j] == s[j - 1];
    }
  }
}
