/** The tables of nodes and of neighbours: a fixed number of slots, in which each key is held once. */
module InternTable {
  import opened Wrappers

  /** The 128 bits of a UUID or of an address. */
  type Key = k: nat | k < 0x1_0000_0000_0000_0000_0000_0000_0000_0000

  datatype Slot = Slot(key: Key, valid: bool, partner: bool) {
    predicate Holds(k: Key) { valid && key == k }
  }

  const TABLE_SIZE: nat := 4096

  // ----- the table as a value -----

  predicate Has(s: seq<Slot>, key: Key, i: nat) {
    i < |s| && s[i].Holds(key)
  }

  predicate Free(s: seq<Slot>, i: nat) {
    i < |s| && !s[i].valid
  }

  /** No two slots hold the same key, and a free slot is nobody's partner. */
  ghost predicate Unique(s: seq<Slot>) {
    && (forall i, j :: 0 <= i < j < |s| && s[i].valid && s[j].valid ==> s[i].key != s[j].key)
    && forall i :: 0 <= i < |s| && !s[i].valid ==> !s[i].partner
  }

  function FirstMatch(s: seq<Slot>, key: Key): (r: Option<nat>)
    ensures r.Some? ==> Has(s, key, r.value) && forall i :: 0 <= i < r.value ==> !Has(s, key, i)
    ensures r.None? ==> forall i :: 0 <= i < |s| ==> !Has(s, key, i)
  {
    if s == [] then None
    else if s[0].Holds(key) then Some(0)
    else
      match FirstMatch(s[1..], key)
      case None =>
        assert forall i :: 0 < i < |s| ==> s[i] == s[1..][i - 1] && !Has(s[1..], key, i - 1);
        None
      case Some(i) =>
        assert forall j :: 0 < j < i + 1 ==> s[j] == s[1..][j - 1] && !Has(s[1..], key, j - 1);
        Some(i + 1)
  }

  function LastMatch(s: seq<Slot>, key: Key): (r: Option<nat>)
    ensures r.Some? ==> Has(s, key, r.value) && forall i :: r.value < i < |s| ==> !Has(s, key, i)
    ensures r.None? ==> forall i :: 0 <= i < |s| ==> !Has(s, key, i)
  {
    if s == [] then None
    else if s[|s| - 1].Holds(key) then Some(|s| - 1)
    else
      var front := s[..|s| - 1];
      assert forall i :: 0 <= i < |front| ==> (Has(front, key, i) <==> Has(s, key, i));
      LastMatch(front, key)
  }

  function LastFree(s: seq<Slot>): (r: Option<nat>)
    ensures r.Some? ==> Free(s, r.value) && forall i :: r.value < i < |s| ==> !Free(s, i)
    ensures r.None? ==> forall i :: 0 <= i < |s| ==> !Free(s, i)
  {
    if s == [] then None
    else if !s[|s| - 1].valid then Some(|s| - 1)
    else
      var front := s[..|s| - 1];
      assert forall i :: 0 <= i < |front| ==> (Free(front, i) <==> Free(s, i));
      LastFree(front)
  }

  /** A key is found where it is, or goes into the last free slot. */
  function Interned(s: seq<Slot>, key: Key): (seq<Slot>, Option<nat>) {
    if FirstMatch(s, key).Some? then (s, FirstMatch(s, key))
    else
      match LastFree(s)
      case None => (s, None)
      case Some(i) => (s[i := s[i].(key := key, valid := true)], Some(i))
  }

  function Cleared(slot: Slot, key: Key): Slot {
    if slot.Holds(key) then slot.(valid := false, partner := false) else slot
  }

  function Removed(s: seq<Slot>, key: Key): seq<Slot> {
    seq(|s|, i requires 0 <= i < |s| => Cleared(s[i], key))
  }

  /** With every key in one slot the first and the last match are the same; otherwise some key tells
      them apart. */
  lemma MatchesAgreeIffUnique(s: seq<Slot>)
    requires forall i :: 0 <= i < |s| && !s[i].valid ==> !s[i].partner
    ensures (forall key :: FirstMatch(s, key) == LastMatch(s, key)) <==> Unique(s)
  {
    if !Unique(s) {
      var i, j :| 0 <= i < j < |s| && s[i].valid && s[j].valid && s[i].key == s[j].key;
      var key := s[i].key;
      assert Has(s, key, i) && Has(s, key, j);
      assert FirstMatch(s, key) != LastMatch(s, key);
    } else {
      forall key ensures FirstMatch(s, key) == LastMatch(s, key) {
        OneMatch(s, key);
      }
    }
  }

  lemma OneMatch(s: seq<Slot>, key: Key)
    requires Unique(s)
    ensures FirstMatch(s, key) == LastMatch(s, key)
    ensures forall i :: 0 <= i < |s| && Has(s, key, i) ==> FirstMatch(s, key) == Some(i)
  {
  }

  /** Interning fails exactly when every slot holds another key; it moves nothing, and the key is then
      found by either search. */
  lemma InterningIsRight(s: seq<Slot>, key: Key)
    requires Unique(s)
    ensures var (t, r) := Interned(s, key);
      && Unique(t) && |t| == |s|
      && (r.None? <==> forall i :: 0 <= i < |s| ==> s[i].valid && s[i].key != key)
      && (r.None? ==> t == s)
      && (r.Some? ==> FirstMatch(t, key) == LastMatch(t, key) == r)
      && (forall i :: 0 <= i < |s| && s[i].valid ==> t[i] == s[i])
      && (r.Some? && t != s ==>
            && t == s[r.value := Slot(key, true, s[r.value].partner)]
            && !s[r.value].valid && forall i :: r.value < i < |s| ==> s[i].valid)
  {
    var (t, r) := Interned(s, key);
    assert FirstMatch(s, key).None? ==> forall i :: 0 <= i < |s| && s[i].valid ==> s[i].key != key by {
      forall i | 0 <= i < |s| && FirstMatch(s, key).None? && s[i].valid ensures s[i].key != key {
        assert !Has(s, key, i);
      }
    }
    OneMatch(t, key);
    if r.None? {
      forall i | 0 <= i < |s| ensures s[i].valid && s[i].key != key {
        assert !Free(s, i) && !Has(s, key, i);
      }
    } else {
      assert Has(s, key, r.value) || Free(s, r.value);
      assert forall i :: r.value < i < |s| && !s[i].valid ==> Free(s, i);
    }
  }

  lemma RemovingIsRight(s: seq<Slot>, key: Key)
    requires Unique(s)
    ensures var t := Removed(s, key);
      && Unique(t) && FirstMatch(t, key) == None
      && forall i :: 0 <= i < |s| ==> if s[i].Holds(key) then !t[i].valid else t[i] == s[i]
  {
    var t := Removed(s, key);
    assert forall i :: 0 <= i < |t| ==> !Has(t, key, i);
  }

  // ----- runs -----

  datatype Op = Intern(key: Key) | Remove(key: Key) | Find(key: Key)

  function Applied(s: seq<Slot>, op: Op): (seq<Slot>, Option<nat>) {
    match op
    case Intern(key) => Interned(s, key)
    case Remove(key) => (Removed(s, key), None)
    case Find(key) => (s, LastMatch(s, key))
  }

  function Ran(s: seq<Slot>, ops: seq<Op>): seq<Slot>
    decreases |ops|
  {
    if ops == [] then s else Ran(Applied(s, ops[0]).0, ops[1..])
  }

  lemma AppliedKeeps(s: seq<Slot>, op: Op, key: Key, i: nat)
    requires Unique(s)
    ensures Unique(Applied(s, op).0) && |Applied(s, op).0| == |s|
    ensures Has(s, key, i) && op != Remove(key) ==> Has(Applied(s, op).0, key, i)
    ensures Has(s, key, i) && (op == Intern(key) || op == Find(key)) ==> Applied(s, op).1 == Some(i)
  {
    match op
    case Intern(k) =>
      InterningIsRight(s, k);
      OneMatch(s, key);
    case Remove(k) => RemovingIsRight(s, k);
    case Find(k) => OneMatch(s, key);
  }

  /** Through any run a key is held once, and stays in the slot it was given until it is removed. */
  lemma {:induction false} KeysKeepTheirSlots(s: seq<Slot>, ops: seq<Op>, key: Key, i: nat)
    requires Unique(s)
    ensures Unique(Ran(s, ops)) && |Ran(s, ops)| == |s|
    ensures Has(s, key, i) && Remove(key) !in ops ==>
      && Has(Ran(s, ops), key, i)
      && forall op :: op == Intern(key) || op == Find(key) ==> Applied(Ran(s, ops), op).1 == Some(i)
    decreases |ops|
  {
    hide Unique, Applied;
    if ops != [] {
      AppliedKeeps(s, ops[0], key, i);
      KeysKeepTheirSlots(Applied(s, ops[0]).0, ops[1..], key, i);
    } else {
      AppliedKeeps(s, Intern(key), key, i);
      AppliedKeeps(s, Find(key), key, i);
    }
  }

  // ----- the table in place -----

  function Count(s: seq<Slot>): (n: nat)
    ensures n <= |s|
  {
    if s == [] then 0 else Count(s[..|s| - 1]) + if s[|s| - 1].valid then 1 else 0
  }

  /** The slots up to the one that holds the key. */
  function UpTo(s: seq<Slot>, key: Key): seq<Slot> {
    match FirstMatch(s, key)
    case None => s
    case Some(i) => s[..i + 1]
  }

  lemma FirstIs(s: seq<Slot>, key: Key, i: nat)
    requires Has(s, key, i) && forall j :: 0 <= j < i ==> !Has(s, key, j)
    ensures FirstMatch(s, key) == Some(i)
  {
  }

  lemma NoneIs(s: seq<Slot>, key: Key)
    requires forall j :: 0 <= j < |s| ==> !Has(s, key, j)
    ensures FirstMatch(s, key) == None
  {
  }

  class Table {
    const slots: array<Slot>
    var warningReported: bool
    var errorReported: bool

    ghost predicate Valid()
      reads this, slots
    {
      slots.Length == TABLE_SIZE && Unique(slots[..])
    }

    /** All slots are free; what their keys are does not matter. */
    constructor (any: Key)
      ensures Valid() && fresh(slots) && forall i :: 0 <= i < TABLE_SIZE ==> Free(slots[..], i)
    {
      slots := new Slot[TABLE_SIZE](_ => Slot(any, false, false));
      warningReported, errorReported := false, false;
    }

    /** The first free slot from `from` on, and how many slots were looked at. */
    method Scan(from: nat) returns (available: Option<nat>, looked: nat)
      requires from <= TABLE_SIZE && slots.Length == TABLE_SIZE
      ensures available.Some? ==> from <= available.value && Free(slots[..], available.value)
      ensures looked <= TABLE_SIZE - from
      ensures available.None? ==> forall i :: from <= i < TABLE_SIZE ==> !Free(slots[..], i)
    {
      looked := 0;
      while from + looked < TABLE_SIZE
        invariant from + looked <= TABLE_SIZE
        invariant forall i :: from <= i < from + looked ==> !Free(slots[..], i)
      {
        if !slots[from + looked].valid { return Some(from + looked), looked; }
        looked := looked + 1;
      }
      available := None;
    }

    /** The second scan, for a free slot, has no slot left to look at.  A warning is due when more than
        256 slots were in use up to the one that holds the key. */
    method Intern(key: Key) returns (result: Option<nat>, ghost rescanned: nat)
      requires Valid()
      modifies this`warningReported, this`errorReported, slots
      ensures Valid() && (slots[..], result) == Interned(old(slots[..]), key)
      ensures rescanned == 0
      ensures errorReported <==> old(errorReported) || result.None?
      ensures warningReported <==> old(warningReported) || Count(UpTo(old(slots[..]), key)) > 256
    {
      ghost var s := slots[..];
      InterningIsRight(s, key);
      var inUseCount := 0;
      var available: Option<nat> := None;
      result := None;
      rescanned := 0;
      var i := 0;
      while i < TABLE_SIZE
        invariant i <= TABLE_SIZE && slots[..] == s && result == None
        invariant inUseCount == Count(s[..i]) && available == LastFree(s[..i])
        invariant forall j :: 0 <= j < i ==> !Has(s, key, j)
      {
        assert s[..i + 1][..i] == s[..i];
        if !slots[i].valid {
          available := Some(i);
        } else {
          inUseCount := inUseCount + 1;
          if slots[i].key == key {
            result := Some(i);
            FirstIs(s, key, i);
            break;
          }
        }
        i := i + 1;
      }
      if result == None { NoneIs(s, key); }
      assert s[..|s|] == s;
      if inUseCount > 256 { warningReported := true; }
      if result == None {
        if available == None {
          var looked;
          available, looked := Scan(i);
          rescanned := looked;
        }
        if available.Some? {
          slots[available.value] := slots[available.value].(key := key, valid := true);
          result := available;
        } else {
          errorReported := true;
        }
      }
    }

    method Remove(key: Key)
      requires Valid()
      modifies slots
      ensures Valid() && slots[..] == Removed(old(slots[..]), key)
    {
      ghost var s := slots[..];
      RemovingIsRight(s, key);
      for i := 0 to TABLE_SIZE
        invariant slots[..i] == Removed(s, key)[..i] && slots[i..] == s[i..]
      {
        if slots[i].valid && slots[i].key == key {
          slots[i] := slots[i].(valid := false, partner := false);
        }
      }
      assert slots[..] == slots[..TABLE_SIZE];
    }

    /** The node table is searched to its end. */
    method FindNode(key: Key) returns (result: Option<nat>)
      requires Valid()
      ensures result == LastMatch(slots[..], key) == FirstMatch(slots[..], key)
    {
      result := None;
      for i := 0 to TABLE_SIZE
        invariant result == LastMatch(slots[..i], key)
      {
        assert slots[..i + 1][..i] == slots[..i];
        if slots[i].valid && slots[i].key == key { result := Some(i); }
      }
      assert slots[..TABLE_SIZE] == slots[..];
      OneMatch(slots[..], key);
    }

    /** The neighbour table is searched to the first match. */
    method FindNeighbor(key: Key) returns (result: Option<nat>)
      requires Valid()
      ensures result == FirstMatch(slots[..], key) == LastMatch(slots[..], key)
    {
      OneMatch(slots[..], key);
      for i := 0 to TABLE_SIZE
        invariant forall j :: 0 <= j < i ==> !Has(slots[..], key, j)
      {
        if slots[i].valid && slots[i].key == key {
          FirstIs(slots[..], key, i);
          return Some(i);
        }
      }
      NoneIs(slots[..], key);
      result := None;
    }

    method ClearPartners() returns (cleared: nat)
      requires Valid()
      modifies slots
      ensures Valid() && cleared == Partners(old(slots[..]))
      ensures slots[..] == WithoutPartners(old(slots[..]))
      ensures forall i :: 0 <= i < TABLE_SIZE ==> slots[i] == old(slots[i]).(partner := false)
    {
      ghost var s := slots[..];
      cleared := 0;
      for i := 0 to TABLE_SIZE
        invariant slots[..i] == WithoutPartners(s)[..i] && slots[i..] == s[i..]
        invariant cleared == Partners(s[..i])
      {
        assert s[..i + 1][..i] == s[..i];
        if slots[i].valid && slots[i].partner {
          slots[i] := slots[i].(partner := false);
          cleared := cleared + 1;
        }
      }
      assert slots[..] == slots[..TABLE_SIZE] && s[..TABLE_SIZE] == s;
    }

    /** The cached partner becomes the only one.  When the table is full of other keys there is no node
        to mark; the source goes on with a null pointer then. */
    method LoadCache(key: Key) returns (ok: bool)
      requires Valid()
      modifies this`warningReported, this`errorReported, slots
      ensures Valid()
      ensures ok <==> exists i :: 0 <= i < TABLE_SIZE && (Free(old(slots[..]), i) || Has(old(slots[..]), key, i))
      ensures ok ==> exists i :: Has(slots[..], key, i) && OnlyPartner(slots[..], i)
    {
      ghost var s := slots[..];
      var _ := ClearPartners();
      ghost var t := slots[..];
      InterningIsRight(t, key);
      var node, _ := Intern(key);
      ok := node.Some?;
      assert forall i :: 0 <= i < TABLE_SIZE ==> (Free(s, i) <==> Free(t, i)) && (Has(s, key, i) <==> Has(t, key, i));
      if ok {
        slots[node.value] := slots[node.value].(partner := true);
        assert Has(slots[..], key, node.value) && OnlyPartner(slots[..], node.value);
      }
    }
  }

  ghost predicate OnlyPartner(s: seq<Slot>, i: nat) {
    forall j :: 0 <= j < |s| ==> (s[j].partner <==> j == i)
  }

  function Partners(s: seq<Slot>): nat {
    if s == [] then 0
    else Partners(s[..|s| - 1]) + if s[|s| - 1].valid && s[|s| - 1].partner then 1 else 0
  }

  function WithoutPartners(s: seq<Slot>): seq<Slot> {
    seq(|s|, i requires 0 <= i < |s| => s[i].(partner := s[i].partner && !s[i].valid))
  }
}
