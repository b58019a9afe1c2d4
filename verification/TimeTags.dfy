/** The sorted time tags of a match, by which the lex and mea strategies compare activations. */
module TimeTags {
  import opened Wrappers

  ghost predicate Descending(s: seq<nat>) {
    forall i, j :: 0 <= i < j < |s| ==> s[i] >= s[j]
  }

  /** The tags as they are copied: 0 for what matched nothing. */
  function TagsOf(binds: seq<Option<nat>>): (s: seq<nat>)
    ensures |s| == |binds|
    ensures forall i :: 0 <= i < |s| ==> s[i] == if binds[i].Some? then binds[i].value else 0
  {
    seq(|binds|, i requires 0 <= i < |binds| => if binds[i].Some? then binds[i].value else 0)
  }

  // ----- one pass -----

  function Exchanged(s: seq<nat>, j: nat): (t: seq<nat>)
    requires j + 1 < |s|
    ensures |t| == |s| && t[j] == s[j + 1] && t[j + 1] == s[j]
    ensures forall i :: 0 <= i < |s| && i != j && i != j + 1 ==> t[i] == s[i]
  {
    s[j := s[j + 1]][j + 1 := s[j]]
  }

  /** The first `k + 1` tags are only arranged anew, and the others stay. */
  ghost predicate Rearranged(s: seq<nat>, t: seq<nat>, k: nat) {
    |s| == |t| && k < |s| && multiset(s[..k + 1]) == multiset(t[..k + 1]) && s[k + 1..] == t[k + 1..]
  }

  lemma RearrangedAll(s: seq<nat>, t: seq<nat>, k: nat)
    requires Rearranged(s, t, k)
    ensures multiset(s) == multiset(t)
  {
    assert s == s[..k + 1] + s[k + 1..] && t == t[..k + 1] + t[k + 1..];
  }

  lemma ExchangeRearranges(s: seq<nat>, t: seq<nat>, k: nat, j: nat)
    requires Rearranged(s, t, k) && j < k
    ensures Rearranged(s, Exchanged(t, j), k)
  {
    assert Exchanged(t, j)[..k + 1] == t[..k + 1][j := t[..k + 1][j + 1]][j + 1 := t[..k + 1][j]];
    assert Exchanged(t, j)[k + 1..] == t[k + 1..];
  }

  ghost predicate SmallestAt(s: seq<nat>, j: nat) {
    j < |s| && forall i :: 0 <= i < j ==> s[i] >= s[j]
  }

  ghost predicate SortedTo(s: seq<nat>, j: nat) {
    j < |s| && forall i, l :: 0 <= i < l <= j ==> s[i] >= s[l]
  }

  lemma NextStep(s: seq<nat>, j: nat)
    requires SmallestAt(s, j) && j + 1 < |s|
    ensures s[j] < s[j + 1] ==> SmallestAt(Exchanged(s, j), j + 1)
    ensures s[j] >= s[j + 1] ==> SmallestAt(s, j + 1) && (SortedTo(s, j) ==> SortedTo(s, j + 1))
  {
  }

  method Exchange(nbinds: array<nat>, j: nat)
    requires j + 1 < nbinds.Length
    modifies nbinds
    ensures nbinds[..] == Exchanged(old(nbinds[..]), j)
  {
    var temp := nbinds[j];
    nbinds[j] := nbinds[j + 1];
    nbinds[j + 1] := temp;
  }

  /** One pass moves the smallest of the first `k + 1` tags to place `k`; without an exchange they were sorted. */
  method Pass(nbinds: array<nat>, k: nat) returns (flag: bool)
    requires k < nbinds.Length
    modifies nbinds
    ensures Rearranged(old(nbinds[..]), nbinds[..], k) && SmallestAt(nbinds[..], k)
    ensures (!flag ==> SortedTo(nbinds[..], k)) && (flag ==> k > 0)
  {
    hide Rearranged, SmallestAt, SortedTo, Exchanged;
    ghost var was := nbinds[..];
    Start(was, k);
    flag := false;
    for j := 0 to k
      invariant Rearranged(was, nbinds[..], k) && SmallestAt(nbinds[..], j)
      invariant (!flag ==> SortedTo(nbinds[..], j)) && (flag ==> j > 0)
    {
      NextStep(nbinds[..], j);
      if nbinds[j] < nbinds[j + 1] {
        ExchangeRearranges(was, nbinds[..], k, j);
        Exchange(nbinds, j);
        flag := true;
      }
    }
  }

  lemma Start(s: seq<nat>, k: nat)
    requires k < |s|
    ensures Rearranged(s, s, k) && SmallestAt(s, 0) && SortedTo(s, 0)
  {
  }

  // ----- all passes -----

  /** The tags from `k` on are sorted, and all before are at least as large. */
  ghost predicate Settled(s: seq<nat>, k: nat) {
    && (forall i, j :: k <= i < j < |s| ==> s[i] >= s[j])
    && (forall i, j :: 0 <= i < k <= j < |s| ==> s[i] >= s[j])
  }

  lemma OneMoreSettled(s: seq<nat>, t: seq<nat>, k: nat)
    requires Settled(s, k + 1) && Rearranged(s, t, k) && SmallestAt(t, k)
    ensures Settled(t, k) && (SortedTo(t, k) ==> Descending(t))
  {
    forall j | k < j < |t| ensures t[j] == s[j] {
      assert t[j] == t[k + 1..][j - k - 1] && s[j] == s[k + 1..][j - k - 1];
    }
    forall i, j | 0 <= i <= k < j < |t| ensures t[i] >= t[j] {
      assert t[..k + 1][i] in multiset(t[..k + 1]);
      var m :| 0 <= m < k + 1 && s[..k + 1][m] == t[i];
      assert s[m] >= s[j];
    }
  }

  /** The tags of a match, the latest first. */
  method SortPartialMatch(binds: seq<Option<nat>>) returns (nbinds: array<nat>)
    requires binds != []
    ensures fresh(nbinds) && Descending(nbinds[..]) && multiset(nbinds[..]) == multiset(TagsOf(binds))
  {
    hide Descending, Settled, Rearranged, SmallestAt, SortedTo;
    nbinds := new nat[|binds|](i requires 0 <= i < |binds| => TagsOf(binds)[i]);
    assert nbinds[..] == TagsOf(binds);
    AllUnsettled(nbinds[..]);
    var flag, k := true, |binds| - 1;
    while flag
      invariant -1 <= k < nbinds.Length == |binds| && (flag ==> 0 <= k && Settled(nbinds[..], k + 1))
      invariant multiset(nbinds[..]) == multiset(TagsOf(binds))
      invariant !flag ==> Descending(nbinds[..])
      decreases flag, k
    {
      ghost var s := nbinds[..];
      flag := Pass(nbinds, k);
      OneMoreSettled(s, nbinds[..], k);
      RearrangedAll(s, nbinds[..], k);
      FirstIsSorted(nbinds[..]);
      k := k - 1;
    }
  }

  lemma AllUnsettled(s: seq<nat>)
    ensures Settled(s, |s|)
  {
  }

  lemma FirstIsSorted(s: seq<nat>)
    ensures Settled(s, 0) ==> Descending(s)
  {
  }

  /** There is only one way to sort tags. */
  lemma {:induction false} SortedIsUnique(s: seq<nat>, t: seq<nat>)
    requires Descending(s) && Descending(t) && multiset(s) == multiset(t)
    ensures s == t
  {
    assert |s| == |multiset(s)| == |multiset(t)| == |t|;
    if s != [] {
      SameFirst(s, t);
      assert s == [s[0]] + s[1..] && t == [t[0]] + t[1..];
      assert multiset(s[1..]) == multiset(s) - multiset{s[0]} && multiset(t[1..]) == multiset(t) - multiset{t[0]};
      SortedIsUnique(s[1..], t[1..]);
    }
  }

  lemma SameFirst(s: seq<nat>, t: seq<nat>)
    requires Descending(s) && Descending(t) && multiset(s) == multiset(t) && s != [] && t != []
    ensures s[0] == t[0]
  {
    assert s[0] in multiset(t) && t[0] in multiset(s);
    var i :| 0 <= i < |t| && t[i] == s[0];
    var j :| 0 <= j < |s| && s[j] == t[0];
  }
}
