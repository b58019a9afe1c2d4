/** The salience-group index over values: `s` is the list of activations, `sal`
    their saliences, and each run names the first and the last activation of one
    salience.  `T` stands for references to activations. */
module SalienceIndex {

  datatype Run<T> = Run(salience: int, first: T, last: T)

  ghost predicate Decreasing<T>(runs: seq<Run<T>>) {
    forall k, l {:trigger Above(runs[k], runs[l])} :: 0 <= k < l < |runs| ==> Above(runs[k], runs[l])
  }

  predicate Above<T>(a: Run<T>, b: Run<T>) {
    a.salience > b.salience
  }

  lemma StrictlyDecreasing<T>(runs: seq<Run<T>>)
    requires Decreasing(runs)
    ensures forall k, l :: 0 <= k < l < |runs| ==> runs[k].salience > runs[l].salience
  {
    forall k, l | 0 <= k < l < |runs| ensures runs[k].salience > runs[l].salience {
      assert Above(runs[k], runs[l]);
    }
  }

  ghost predicate NonIncreasing(sal: seq<int>) {
    forall i, j :: 0 <= i < j < |sal| ==> sal[i] >= sal[j]
  }

  ghost predicate Distinct<T>(s: seq<T>) {
    forall i, j :: 0 <= i < j < |s| ==> s[i] != s[j]
  }

  /** `r.first` and `r.last` are the ends of the activations of `r.salience`. */
  ghost predicate Bounds<T>(s: seq<T>, sal: seq<int>, r: Run<T>)
    requires |s| == |sal|
  {
    && r.first in s && r.last in s
    && (forall i :: 0 <= i < |s| && s[i] == r.first ==>
          sal[i] == r.salience && forall j :: 0 <= j < i ==> sal[j] > r.salience)
    && (forall i :: 0 <= i < |s| && s[i] == r.last ==>
          sal[i] == r.salience && forall j :: i < j < |s| ==> sal[j] < r.salience)
  }

  ghost function Saliences<T>(runs: seq<Run<T>>): (r: set<int>)
    ensures forall k :: 0 <= k < |runs| ==> runs[k].salience in r
  {
    if runs == [] then {} else {runs[0].salience} + Saliences(runs[1..])
  }

  lemma {:induction false} RunOf<T>(runs: seq<Run<T>>, salience: int) returns (k: nat)
    requires salience in Saliences(runs)
    ensures k < |runs| && runs[k].salience == salience
  {
    if runs[0].salience == salience {
      k := 0;
    } else {
      k := RunOf(runs[1..], salience);
      k := k + 1;
    }
  }

  /** A run that has been created and not filled yet, if there is one. */
  datatype Hole = Complete | Awaits(k: nat)

  /** The index, except that the run `hole` names has no activations yet. */
  ghost predicate IndexedBut<T>(s: seq<T>, sal: seq<int>, runs: seq<Run<T>>, hole: Hole)
    requires |s| == |sal|
  {
    match hole
    case Complete =>
      && Decreasing(runs)
      && (forall i :: 0 <= i < |sal| ==> sal[i] in Saliences(runs))
      && (forall k {:trigger Bounds(s, sal, runs[k])} :: 0 <= k < |runs| ==> Bounds(s, sal, runs[k]))
    case Awaits(h) =>
      && Decreasing(runs)
      && (forall i :: 0 <= i < |sal| ==> sal[i] in Saliences(runs))
      && (forall k {:trigger Bounds(s, sal, runs[k])} :: 0 <= k < |runs| && k != h ==> Bounds(s, sal, runs[k]))
      && h < |runs| && runs[h].salience !in sal
  }

  ghost predicate Indexed<T>(s: seq<T>, sal: seq<int>, runs: seq<Run<T>>)
    requires |s| == |sal|
  {
    IndexedBut(s, sal, runs, Complete)
  }

  /** Saliences of the list fall into the runs, so none lies between two neighbours. */
  lemma NoSalienceBetween<T>(sal: seq<int>, runs: seq<Run<T>>, k: nat, i: nat)
    requires k < |runs| && i < |sal| && Decreasing(runs) && sal[i] in Saliences(runs)
    requires k > 0 ==> sal[i] < runs[k - 1].salience
    ensures sal[i] <= runs[k].salience
  {
    StrictlyDecreasing(runs);
    var l := RunOf(runs, sal[i]);
    assert l >= k;
  }

  /** Where the activations of run `k` start, found from the run before it. */
  lemma RunStart<T>(s: seq<T>, sal: seq<int>, runs: seq<Run<T>>, k: nat, hole: Hole) returns (lo: nat)
    requires |s| == |sal| && k < |runs|
    requires IndexedBut(s, sal, runs, hole) && (hole == Awaits(k) || hole == Complete) && NonIncreasing(sal)
    ensures lo <= |s|
    ensures forall i :: 0 <= i < lo ==> sal[i] > runs[k].salience
    ensures forall i :: lo <= i < |s| ==> sal[i] <= runs[k].salience
    ensures k == 0 ==> lo == 0
    ensures k > 0 ==> lo > 0 && runs[k - 1].last == s[lo - 1]
  {
    StrictlyDecreasing(runs);
    if k == 0 {
      lo := 0;
    } else {
      assert Bounds(s, sal, runs[k - 1]);
      var hi: nat :| hi < |s| && s[hi] == runs[k - 1].last;
      lo := hi + 1;
    }
    forall i | lo <= i < |s| ensures sal[i] <= runs[k].salience {
      NoSalienceBetween(sal, runs, k, i);
    }
  }

  /** The ends of a run with activations. */
  lemma RunEnds<T>(s: seq<T>, sal: seq<int>, r: Run<T>, lo: nat) returns (hi: nat)
    requires |s| == |sal| && lo <= |s| && Bounds(s, sal, r) && NonIncreasing(sal)
    requires forall i :: 0 <= i < lo ==> sal[i] > r.salience
    requires forall i :: lo <= i < |s| ==> sal[i] <= r.salience
    ensures lo <= hi < |s| && s[lo] == r.first && s[hi] == r.last
    ensures forall i :: lo <= i <= hi ==> sal[i] == r.salience
    ensures forall i :: hi < i < |s| ==> sal[i] < r.salience
  {
    hi :| hi < |s| && s[hi] == r.last;
    var f: nat :| f < |s| && s[f] == r.first;
    assert lo <= hi && sal[lo] <= r.salience;
    assert f == lo;
  }

  /** A new empty run keeps the index, apart from the hole it leaves. */
  lemma AddHole<T>(s: seq<T>, sal: seq<int>, runs: seq<Run<T>>, k: nat, r: Run<T>)
    requires |s| == |sal| && k <= |runs| && Indexed(s, sal, runs)
    requires forall l :: 0 <= l < k ==> runs[l].salience > r.salience
    requires forall l :: k <= l < |runs| ==> runs[l].salience < r.salience
    ensures IndexedBut(s, sal, Insert(runs, k, r), Awaits(k))
    ensures r.salience !in sal
  {
    var hs := Insert(runs, k, r);
    forall i | 0 <= i < |sal| ensures sal[i] != r.salience && sal[i] in Saliences(hs) {
      var l := RunOf(runs, sal[i]);
      assert hs[if l < k then l else l + 1] == runs[l];
    }
    forall l | 0 <= l < |hs| && l != k ensures Bounds(s, sal, hs[l]) {
      assert hs[l] == runs[if l < k then l else l - 1];
    }
  }

  function Insert<T>(s: seq<T>, p: nat, x: T): (r: seq<T>)
    requires p <= |s|
    ensures |r| == |s| + 1 && r[p] == x
    ensures forall i :: 0 <= i < p ==> r[i] == s[i]
    ensures forall i :: p < i < |r| ==> r[i] == s[i - 1]
  {
    s[..p] + [x] + s[p..]
  }

  function Remove<T>(s: seq<T>, p: nat): (r: seq<T>)
    requires p < |s|
    ensures |r| == |s| - 1
    ensures forall i :: 0 <= i < p ==> r[i] == s[i]
    ensures forall i :: p <= i < |r| ==> r[i] == s[i + 1]
  {
    s[..p] + s[p + 1..]
  }

  lemma InsertPosition<T>(s: seq<T>, p: nat, x: T, y: T)
    requires p <= |s| && y in s
    ensures y in Insert(s, p, x)
  {
    var i: nat :| i < |s| && s[i] == y;
    assert Insert(s, p, x)[if i < p then i else i + 1] == y;
  }

  lemma InsertKeepsFirst<T>(s: seq<T>, sal: seq<int>, r: Run<T>, p: nat, x: T, xsal: int, i: nat)
    requires |s| == |sal| && p <= |s| && x !in s && Bounds(s, sal, r) && r.salience != xsal
    requires forall j :: p <= j < |s| ==> sal[j] <= xsal
    requires i <= |s| && Insert(s, p, x)[i] == r.first
    ensures Insert(sal, p, xsal)[i] == r.salience && forall j :: 0 <= j < i ==> Insert(sal, p, xsal)[j] > r.salience
  {
    assert s[if i < p then i else i - 1] == r.first;
  }

  lemma InsertKeepsLast<T>(s: seq<T>, sal: seq<int>, r: Run<T>, p: nat, x: T, xsal: int, i: nat)
    requires |s| == |sal| && p <= |s| && x !in s && Bounds(s, sal, r) && r.salience != xsal
    requires forall j :: 0 <= j < p ==> sal[j] >= xsal
    requires i <= |s| && Insert(s, p, x)[i] == r.last
    ensures Insert(sal, p, xsal)[i] == r.salience
    ensures forall j :: i < j <= |s| ==> Insert(sal, p, xsal)[j] < r.salience
  {
    assert s[if i < p then i else i - 1] == r.last;
  }

  /** Another run keeps its ends when a node of a different salience comes in between runs. */
  lemma InsertOther<T>(s: seq<T>, sal: seq<int>, r: Run<T>, p: nat, x: T, xsal: int)
    requires |s| == |sal| && p <= |s| && x !in s && Bounds(s, sal, r) && r.salience != xsal
    requires forall i :: 0 <= i < p ==> sal[i] >= xsal
    requires forall i :: p <= i < |s| ==> sal[i] <= xsal
    ensures Bounds(Insert(s, p, x), Insert(sal, p, xsal), r)
  {
    var t, tsal := Insert(s, p, x), Insert(sal, p, xsal);
    InsertPosition(s, p, x, r.first);
    InsertPosition(s, p, x, r.last);
    forall i | 0 <= i < |t| && t[i] == r.first
      ensures tsal[i] == r.salience && forall j :: 0 <= j < i ==> tsal[j] > r.salience
    {
      InsertKeepsFirst(s, sal, r, p, x, xsal, i);
    }
    forall i | 0 <= i < |t| && t[i] == r.last
      ensures tsal[i] == r.salience && forall j :: i < j < |t| ==> tsal[j] < r.salience
    {
      InsertKeepsLast(s, sal, r, p, x, xsal, i);
    }
  }

  /** The run that receives `x` at position `p`. */
  function Extended<T>(r: Run<T>, x: T, leads: bool, trails: bool): Run<T> {
    Run(r.salience, if leads then x else r.first, if trails then x else r.last)
  }

  lemma InsertOwn<T>(s: seq<T>, sal: seq<int>, r: Run<T>, p: nat, x: T, leads: bool, trails: bool)
    requires |s| == |sal| && p <= |s| && x !in s && (Bounds(s, sal, r) || r.salience !in sal)
    requires forall i :: 0 <= i < p ==> sal[i] >= r.salience
    requires forall i :: p <= i < |s| ==> sal[i] <= r.salience
    requires leads == (forall i :: 0 <= i < p ==> sal[i] > r.salience)
    requires trails == (forall i :: p <= i < |s| ==> sal[i] < r.salience)
    ensures Bounds(Insert(s, p, x), Insert(sal, p, r.salience), Extended(r, x, leads, trails))
  {
    var t, tsal := Insert(s, p, x), Insert(sal, p, r.salience);
    if !leads || !trails {
      var i :| 0 <= i < |s| && sal[i] == r.salience;
      assert r.salience in sal;
    }
    if !leads {
      var f: nat :| f < |s| && s[f] == r.first;
      assert f < p && t[f] == r.first;
    }
    if !trails {
      var l: nat :| l < |s| && s[l] == r.last;
      assert l >= p && t[l + 1] == r.last;
    }
  }

  lemma {:induction false} SameSaliences<T>(runs: seq<Run<T>>, after: seq<Run<T>>)
    requires |runs| == |after|
    requires forall k :: 0 <= k < |runs| ==> runs[k].salience == after[k].salience
    ensures Saliences(runs) == Saliences(after)
    ensures Decreasing(runs) ==> Decreasing(after)
  {
    if runs != [] { SameSaliences(runs[1..], after[1..]); }
    if Decreasing(runs) { StrictlyDecreasing(runs); }
  }

  /** Placing an activation of run `k` at a position of that run, with the run's
      ends moved as needed, restores the whole index. */
  lemma InsertIndexed<T>(s: seq<T>, sal: seq<int>, runs: seq<Run<T>>, k: nat, hole: Hole,
                         p: nat, x: T, leads: bool, trails: bool)
    requires |s| == |sal| && k < |runs| && IndexedBut(s, sal, runs, hole) && (hole == Awaits(k) || hole == Complete)
    requires p <= |s| && x !in s
    requires forall i :: 0 <= i < p ==> sal[i] >= runs[k].salience
    requires forall i :: p <= i < |s| ==> sal[i] <= runs[k].salience
    requires leads == (forall i :: 0 <= i < p ==> sal[i] > runs[k].salience)
    requires trails == (forall i :: p <= i < |s| ==> sal[i] < runs[k].salience)
    ensures Indexed(Insert(s, p, x), Insert(sal, p, runs[k].salience), runs[k := Extended(runs[k], x, leads, trails)])
  {
    var t, tsal := Insert(s, p, x), Insert(sal, p, runs[k].salience);
    var after := runs[k := Extended(runs[k], x, leads, trails)];
    SameSaliences(runs, after);
    StrictlyDecreasing(runs);
    InsertOwn(s, sal, runs[k], p, x, leads, trails);
    forall l | 0 <= l < |after| ensures Bounds(t, tsal, after[l]) {
      if l != k {
        assert after[l] == runs[l] && Bounds(s, sal, runs[l]);
        InsertOther(s, sal, runs[l], p, x, runs[k].salience);
      }
    }
    forall i | 0 <= i < |tsal| ensures tsal[i] in Saliences(after) {
      assert tsal[i] == if i == p then runs[k].salience else sal[if i < p then i else i - 1];
    }
  }

  /** A run keeps its ends when a node that is not one of them goes away. */
  lemma RemoveOther<T>(s: seq<T>, sal: seq<int>, r: Run<T>, p: nat)
    requires |s| == |sal| && p < |s| && Bounds(s, sal, r) && s[p] != r.first && s[p] != r.last
    ensures Bounds(Remove(s, p), Remove(sal, p), r)
  {
    var t := Remove(s, p);
    var f: nat :| f < |s| && s[f] == r.first;
    var l: nat :| l < |s| && s[l] == r.last;
    assert t[if f < p then f else f - 1] == r.first;
    assert t[if l < p then l else l - 1] == r.last;
  }

  /** The run after its first, but not only, activation goes away. */
  lemma RemoveFirst<T>(s: seq<T>, sal: seq<int>, r: Run<T>, p: nat)
    requires |s| == |sal| && p < |s| && Distinct(s) && NonIncreasing(sal)
    requires Bounds(s, sal, r) && s[p] == r.first && r.first != r.last
    ensures p + 1 < |s| && Bounds(Remove(s, p), Remove(sal, p), Run(r.salience, s[p + 1], r.last))
  {
    var t, tsal := Remove(s, p), Remove(sal, p);
    var l: nat :| l < |s| && s[l] == r.last;
    assert p < l;
    assert sal[p] >= sal[p + 1] >= sal[l];
    assert t[p] == s[p + 1] && t[l - 1] == r.last;
  }

  /** The run after its last, but not only, activation goes away. */
  lemma RemoveLast<T>(s: seq<T>, sal: seq<int>, r: Run<T>, p: nat)
    requires |s| == |sal| && p < |s| && Distinct(s) && NonIncreasing(sal)
    requires Bounds(s, sal, r) && s[p] == r.last && r.first != r.last
    ensures 0 < p && Bounds(Remove(s, p), Remove(sal, p), Run(r.salience, r.first, s[p - 1]))
  {
    var t, tsal := Remove(s, p), Remove(sal, p);
    var f: nat :| f < |s| && s[f] == r.first;
    assert f < p;
    assert sal[f] >= sal[p - 1] >= sal[p];
    assert t[p - 1] == s[p - 1] && t[f] == r.first;
  }

  /** The run that loses the activation at `p`, which is not its only one. */
  function Shrunk<T(==)>(s: seq<T>, r: Run<T>, p: nat): Run<T>
    requires p < |s|
  {
    if s[p] == r.first then (if p + 1 < |s| then Run(r.salience, s[p + 1], r.last) else r)
    else if s[p] == r.last then (if 0 < p then Run(r.salience, r.first, s[p - 1]) else r)
    else r
  }

  /** Runs other than `k` have no end at a node of run `k`. */
  lemma NotAnEnd<T>(s: seq<T>, sal: seq<int>, r: Run<T>, p: nat)
    requires |s| == |sal| && p < |s| && Bounds(s, sal, r) && sal[p] != r.salience
    ensures s[p] != r.first && s[p] != r.last
  {
  }

  lemma RemoveOwn<T>(s: seq<T>, sal: seq<int>, r: Run<T>, p: nat)
    requires |s| == |sal| && p < |s| && Distinct(s) && NonIncreasing(sal)
    requires Bounds(s, sal, r) && r.first != r.last
    ensures Bounds(Remove(s, p), Remove(sal, p), Shrunk(s, r, p))
  {
    if s[p] == r.first {
      RemoveFirst(s, sal, r, p);
    } else if s[p] == r.last {
      RemoveLast(s, sal, r, p);
    } else {
      RemoveOther(s, sal, r, p);
    }
  }

  /** Dropping an activation of a longer run, and moving the run's ends off it,
      restores the whole index. */
  lemma {:induction false} RemoveIndexed<T>(s: seq<T>, sal: seq<int>, runs: seq<Run<T>>, k: nat, p: nat)
    requires |s| == |sal| && k < |runs| && p < |s| && Indexed(s, sal, runs)
    requires Distinct(s) && NonIncreasing(sal) && sal[p] == runs[k].salience
    requires runs[k].first != runs[k].last
    ensures Indexed(Remove(s, p), Remove(sal, p), runs[k := Shrunk(s, runs[k], p)])
  {
    hide Bounds, Distinct, NonIncreasing;
    var t, tsal, after := Remove(s, p), Remove(sal, p), runs[k := Shrunk(s, runs[k], p)];
    SameSaliences(runs, after);
    StrictlyDecreasing(runs);
    RemoveOwn(s, sal, runs[k], p);
    forall l | 0 <= l < |after| ensures Bounds(t, tsal, after[l]) {
      if l != k {
        NotAnEnd(s, sal, runs[l], p);
        RemoveOther(s, sal, runs[l], p);
      }
    }
  }

  /** A run of one activation goes away with it. */
  lemma RemoveRun<T>(s: seq<T>, sal: seq<int>, runs: seq<Run<T>>, k: nat, p: nat)
    requires |s| == |sal| && k < |runs| && p < |s| && Indexed(s, sal, runs)
    requires Distinct(s) && runs[k].first == runs[k].last == s[p]
    ensures Indexed(Remove(s, p), Remove(sal, p), Remove(runs, k))
  {
    var t, tsal, after := Remove(s, p), Remove(sal, p), Remove(runs, k);
    StrictlyDecreasing(runs);
    assert Bounds(s, sal, runs[k]);
    forall l | 0 <= l < |after| ensures Bounds(t, tsal, after[l]) {
      assert after[l] == runs[if l < k then l else l + 1];
      NotAnEnd(s, sal, after[l], p);
      RemoveOther(s, sal, after[l], p);
    }
    forall i | 0 <= i < |tsal| ensures tsal[i] in Saliences(after) {
      var j := if i < p then i else i + 1;
      assert tsal[i] == sal[j] && sal[j] != runs[k].salience;
      var l := RunOf(runs, sal[j]);
      assert after[if l < k then l else l - 1] == runs[l];
    }
  }

  // ----- the list is the concatenation of the runs -----

  function Position<T(==)>(s: seq<T>, x: T): (i: nat)
    requires x in s
    ensures i < |s| && s[i] == x
  {
    if s[0] == x then 0 else 1 + Position(s[1..], x)
  }

  /** The stretch of the list from the first to the last activation of a run. */
  function Stretch<T(==)>(s: seq<T>, r: Run<T>): seq<T> {
    if r.first in s && r.last in s && Position(s, r.first) <= Position(s, r.last)
    then s[Position(s, r.first)..Position(s, r.last) + 1]
    else []
  }

  /** The stretches of run `k` and of all runs after it, in order. */
  ghost function Concatenation<T>(s: seq<T>, runs: seq<Run<T>>, k: nat): seq<T>
    decreases |runs| - k
  {
    if k >= |runs| then [] else Stretch(s, runs[k]) + Concatenation(s, runs, k + 1)
  }

  lemma NothingPastRuns<T>(sal: seq<int>, runs: seq<Run<T>>, lo: nat)
    requires lo <= |sal| && Decreasing(runs)
    requires forall i :: 0 <= i < |sal| ==> sal[i] in Saliences(runs)
    requires |runs| > 0 ==> forall i :: lo <= i < |sal| ==> sal[i] < runs[|runs| - 1].salience
    ensures lo == |sal|
  {
    StrictlyDecreasing(runs);
    if lo < |sal| {
      var l := RunOf(runs, sal[lo]);
    }
  }

  /** Run `k` covers the list from `lo` to where run `k + 1` starts. */
  lemma NextStretch<T>(s: seq<T>, sal: seq<int>, runs: seq<Run<T>>, k: nat, lo: nat) returns (hi: nat)
    requires |s| == |sal| && k < |runs| && lo <= |s|
    requires Indexed(s, sal, runs) && Distinct(s) && NonIncreasing(sal)
    requires forall i :: 0 <= i < lo ==> sal[i] > runs[k].salience
    requires k > 0 ==> forall i :: lo <= i < |s| ==> sal[i] < runs[k - 1].salience
    ensures lo <= hi <= |s| && runs[k].first in s && runs[k].last in s && Stretch(s, runs[k]) == s[lo..hi]
    ensures k + 1 < |runs| ==> forall i :: 0 <= i < hi ==> sal[i] > runs[k + 1].salience
    ensures forall i :: hi <= i < |s| ==> sal[i] < runs[k].salience
  {
    forall i | lo <= i < |s| ensures sal[i] <= runs[k].salience {
      NoSalienceBetween(sal, runs, k, i);
    }
    assert Bounds(s, sal, runs[k]);
    hi := RunEnds(s, sal, runs[k], lo);
    hi := hi + 1;
    if k + 1 < |runs| {
      StrictlyDecreasing(runs);
    }
  }

  lemma SplitAt<T>(s: seq<T>, lo: nat, mid: nat)
    requires lo <= mid <= |s|
    ensures s[lo..mid] + s[mid..] == s[lo..]
  {
  }

  lemma {:induction false} ConcatenationFrom<T>(s: seq<T>, sal: seq<int>, runs: seq<Run<T>>, k: nat, lo: nat)
    requires |s| == |sal| && k <= |runs| && lo <= |s|
    requires Indexed(s, sal, runs) && Distinct(s) && NonIncreasing(sal)
    requires k < |runs| ==> forall i :: 0 <= i < lo ==> sal[i] > runs[k].salience
    requires k > 0 ==> forall i :: lo <= i < |s| ==> sal[i] < runs[k - 1].salience
    ensures Concatenation(s, runs, k) == s[lo..]
    decreases |runs| - k
  {
    if k == |runs| {
      NothingPastRuns(sal, runs, lo);
    } else {
      var hi := NextStretch(s, sal, runs, k, lo);
      ConcatenationFrom(s, sal, runs, k + 1, hi);
      SplitAt(s, lo, hi);
    }
  }

  /** The agenda is exactly its groups' first..last stretches, one after the other. */
  lemma ListIsConcatenation<T>(s: seq<T>, sal: seq<int>, runs: seq<Run<T>>)
    requires |s| == |sal| && Indexed(s, sal, runs) && Distinct(s) && NonIncreasing(sal)
    ensures Concatenation(s, runs, 0) == s
  {
    ConcatenationFrom(s, sal, runs, 0, 0);
  }
}
