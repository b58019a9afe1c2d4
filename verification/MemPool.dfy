/** The slab allocator's pools as they are linked: each has a bitmap of its free slots,
    and the last of the chain has no slots yet. */
module MemPool {
  import opened PoolChain
  import opened SlotMap

  const MAPS := 16
  const MAP_FAILED := TWO_64 - 1

  /** Whether the 32-bit words mark exactly the slots outside `used`. */
  ghost predicate Marks(words: seq<bv32>, used: set<nat>) {
    && |words| == MAPS
    && (forall k :: k in used ==> k < COUNT)
    && forall w, b :: 0 <= w < MAPS && 0 <= b < 32 ==> (32 * w + b in used <==> !Bit(words[w], b))
  }

  class MemPool {
    var size: nat
    var next: MemPool?
    var start: nat
    const bitmap: array<bv32>
    ghost var used: set<nat>

    constructor ()
      ensures size == 0 && next == null && start == 0 && bitmap.Length == MAPS && fresh(bitmap)
    {
      size, next, start := 0, null, 0;
      bitmap := new bv32[MAPS](_ => 0);
      used := {};
    }

    ghost predicate Ready()
      reads this, bitmap
    {
      0 < size && bitmap.Length == MAPS && Marks(bitmap[..], used)
    }

    ghost function View(): Pool
      reads this
    {
      Pool(size, start, used)
    }

    /** `chain` is this pool and those after it, down to the tail. */
    ghost predicate Heads(chain: seq<MemPool>)
      reads chain, Maps(chain)
      decreases |chain|
    {
      && chain != [] && chain[0] == this && bitmap.Length == MAPS
      && this !in chain[1..] && bitmap !in Maps(chain[1..])
      && if |chain| == 1 then next == null && size == 0 && (start == 0 || start == MAP_FAILED)
         else next == chain[1] && Ready() && chain[1].Heads(chain[1..])
    }

    /** Takes the first free slot of this pool, or finds that it is full. */
    method TakeSlot() returns (entry: nat)
      requires Ready()
      modifies bitmap, `used
      ensures entry == LowestFree(old(used), 0) && Ready()
      ensures used == if entry < COUNT then old(used) + {entry} else old(used)
    {
      for word := 0 to MAPS
        invariant used == old(used) && bitmap[..] == old(bitmap[..])
        invariant forall k :: 0 <= k < 32 * word ==> k in used
      {
        if bitmap[word] == 0 {
          ZeroIsFull(bitmap[..], used, word);
          continue;
        }
        for bit := 0 to 32
          invariant used == old(used) && bitmap[..] == old(bitmap[..])
          invariant forall k :: 0 <= k < 32 * word + bit ==> k in used
        {
          var mask := Mask(Index(bit));
          TestSlot(bitmap[..], used, word, bit);
          if bitmap[word] & mask == 0 { continue; }
          entry := 32 * word + bit;
          FirstFree(used, entry);
          Cleared(bitmap[..], used, word, bit);
          bitmap[word] := bitmap[word] & !mask;
          used := used + {entry};
          return;
        }
      }
      entry := COUNT;
    }

    /** Gives the tail its slots and puts a new tail after it.  Mapping a zone of no
        bytes fails, and leaves the tail marked. */
    method Initialize(objectSize: nat, zone: nat) returns (ok: bool)
      requires size == 0 && next == null && bitmap.Length == MAPS && COUNT * objectSize < TWO_64
      modifies this, bitmap
      ensures ok <==> objectSize != 0
      ensures ok ==> Ready() && View() == Pool(objectSize, zone, {})
                     && next != null && fresh(next) && fresh(next.bitmap) && next.start == 0 && next.Heads([next])
      ensures !ok ==> size == 0 && next == null && start == MAP_FAILED
    {
      size := objectSize;
      var length := size * COUNT;
      if length == 0 {
        start := MAP_FAILED;
        return false;
      }
      start := zone;
      for i := 0 to MAPS
        modifies bitmap
        invariant forall j :: 0 <= j < i ==> bitmap[j] == 0xFFFF_FFFF
      {
        bitmap[i] := 0xFFFF_FFFF;
      }
      used := {};
      AllFree(bitmap[..]);
      next := new MemPool();
      return true;
    }

    /** Takes the first free slot of this pool, seen from the chain. */
    method TakeFrom(ghost chain: seq<MemPool>) returns (entry: nat)
      requires Heads(chain) && |chain| > 1
      modifies bitmap, `used
      ensures Heads(chain) && entry == LowestFree(old(used), 0)
      ensures Marked(chain) == old(Marked(chain))
      ensures Views(chain) == [if entry < COUNT then Take(old(View())) else old(View())] + old(Views(chain[1..]))
    {
      hide Marks, LowestFree;
      entry := TakeSlot();
    }

    /** The rest of the chain allocates. */
    method PassOn(objectSize: nat, zone: nat, ghost chain: seq<MemPool>)
      returns (ok: bool, address: nat, ghost chain': seq<MemPool>)
      requires Heads(chain) && |chain| > 1 && COUNT * objectSize < TWO_64
      modifies chain[1..], Maps(chain[1..])
      ensures Heads(chain') && chain <= chain'
      ensures forall p :: p in chain' && p !in chain ==> fresh(p) && fresh(p.bitmap)
      ensures ok <==> objectSize != 0
      ensures ok ==> Views(chain') == [View()] + Allocated(old(Views(chain[1..])), objectSize, zone).0
                     && address == Allocated(old(Views(chain[1..])), objectSize, zone).1
      ensures !ok ==> Views(chain') == old(Views(chain))
      ensures Marked(chain') == if ok then |chain'| == |chain| && old(Marked(chain)) else true
      decreases |chain|, 0
    {
      hide Marks, Allocated, Serves;
      ghost var rest;
      ok, address, rest := next.Allocate(objectSize, zone, chain[1..]);
      chain' := [this] + rest;
      assert chain'[1..] == rest;
    }

    method Allocate(objectSize: nat, zone: nat, ghost chain: seq<MemPool>)
      returns (ok: bool, address: nat, ghost chain': seq<MemPool>)
      requires Heads(chain) && COUNT * objectSize < TWO_64
      modifies chain, Maps(chain)
      ensures Heads(chain') && chain <= chain'
      ensures forall p :: p in chain' && p !in chain ==> fresh(p) && fresh(p.bitmap)
      ensures ok <==> objectSize != 0
      ensures ok ==> (Views(chain'), address) == Allocated(old(Views(chain)), objectSize, zone)
      ensures !ok ==> Views(chain') == old(Views(chain))
      ensures Marked(chain') == if ok then |chain'| == |chain| && old(Marked(chain)) else true
      decreases |chain|, 1
    {
      hide Marks, Mask, Index;
      if |chain| > 1 { AllocatedCons(View(), Views(chain[1..]), objectSize, zone); }
      ok, address := true, 0;
      chain' := chain;
      if size == 0 {
        ok := Initialize(objectSize, zone);
        if !ok { return; }
        chain' := [this, next];
        FirstOfNew(objectSize, zone);
      }
      if objectSize != size {
        ok, address, chain' := PassOn(objectSize, zone, chain);
        return;
      }
      var entry := TakeFrom(chain');
      if entry < COUNT {
        assert Views(chain') == Allocated(old(Views(chain)), objectSize, zone).0;
        address := start + entry * size;
        return;
      }
      ok, address, chain' := PassOn(objectSize, zone, chain);
    }

    /** Sets the bit of an entry, unless it is set already. */
    method Release(word: nat, bit: nat) returns (outcome: Outcome)
      requires Ready() && word < MAPS && bit < 32
      modifies bitmap, `used
      ensures Ready()
      ensures outcome == if 32 * word + bit in old(used) then Freed else DoubleFree
      ensures used == old(used) - {32 * word + bit}
    {
      var mask := Mask(Index(bit));
      TestSlot(bitmap[..], used, word, bit);
      if bitmap[word] & mask != 0 { return DoubleFree; }
      Raised(bitmap[..], used, word, bit);
      bitmap[word] := bitmap[word] | mask;
      used := used - {32 * word + bit};
      return Freed;
    }

    method ReleaseFrom(entry: nat, ghost chain: seq<MemPool>) returns (outcome: Outcome)
      requires Heads(chain) && |chain| > 1 && entry < COUNT
      modifies bitmap, `used
      ensures Heads(chain) && Marked(chain) == old(Marked(chain))
      ensures outcome == if entry in old(used) then Freed else DoubleFree
      ensures Views(chain) == [Without(old(View()), entry)] + old(Views(chain[1..]))
    {
      hide Marks, Mask, Index;
      var word := entry / 32;
      var bit := entry % 32;
      outcome := Release(word, bit);
    }

    method Free(address: nat, ghost chain: seq<MemPool>) returns (outcome: Outcome)
      requires Heads(chain) && address < TWO_64
      requires PoolsOk(Views(chain))
      modifies chain, Maps(chain)
      ensures Heads(chain) && Marked(chain) == old(Marked(chain))
      ensures (outcome, Views(chain)) == FreedChain(old(Views(chain)), old(Marked(chain)), address)
      decreases |chain|
    {
      hide PoolOk, Marks, Holds, FreedIn, Entry;
      if |chain| > 1 {
        FreedCons(View(), Views(chain[1..]), Marked(chain), address);
        HoldsInRange(View(), address);
      }
      var length := COUNT * size % TWO_32;
      var end := (start + length - 1) % TWO_64;
      if address < start || address > end {
        if next == null { return InvalidObject; }
        outcome := next.Free(address, chain[1..]);
        return;
      }
      var offset := (address - start) % TWO_32;
      if size == 0 { return DivideByZero; }
      var entry := offset / size;
      outcome := ReleaseFrom(entry, chain);
    }

    /** What the bitmap counts as free is what is not in use. */
    method AvailableSlots() returns (sum: nat)
      requires Ready()
      ensures |used| + sum == COUNT
    {
      hide Bit;
      sum := 0;
      ghost var words := bitmap[..];
      for word := 0 to MAPS
        invariant |Below(used, 32 * word)| + sum == 32 * word
      {
        var hw := PopulationCount(bitmap[word]);
        WordCounts(words, used, word, 32);
        sum := sum + Value(hw);
      }
      assert Below(used, COUNT) == used;
    }
  }

  ghost function Below(used: set<nat>, n: nat): set<nat> {
    set k | k in used && k < n
  }

  lemma {:induction false} WordCounts(words: seq<bv32>, used: set<nat>, w: nat, n: nat)
    requires Marks(words, used) && w < MAPS && n <= 32
    ensures |Below(used, 32 * w + n)| + Ones(words[w], n) == |Below(used, 32 * w)| + n
  {
    hide Bit;
    if n > 0 {
      WordCounts(words, used, w, n - 1);
      var k := 32 * w + n - 1;
      assert k in used <==> !Bit(words[w], n - 1);
      assert Below(used, k + 1) == Below(used, k) + if k in used then {k} else {};
    }
  }

  lemma AllocatedCons(p: Pool, rest: seq<Pool>, size: nat, zone: nat)
    ensures Allocated([p] + rest, size, zone) ==
      if Serves(p, size) then ([Take(p)] + rest, Address(p, LowestFree(p.used, 0)))
      else ([p] + Allocated(rest, size, zone).0, Allocated(rest, size, zone).1)
  {
    assert ([p] + rest)[1..] == rest;
  }

  lemma HoldsInRange(p: Pool, address: nat)
    requires PoolOk(p) && address < TWO_64
    ensures Holds(p, address) <==>
      !(address < p.start || address > (p.start + COUNT * p.size % TWO_32 - 1) % TWO_64)
    ensures Holds(p, address) ==> 0 < p.size && address >= p.start
                                  && (address - p.start) % TWO_32 / p.size == Entry(p, address) < COUNT
  {
    var length := Length32(p);
    assert length <= Bytes(p);
    EndInRange(p.start + length - 1);
    if Holds(p, address) { SmallOffset(address - p.start); }
  }

  lemma EndInRange(end: int)
    requires 0 <= end < TWO_64
    ensures end % TWO_64 == end
  {
  }

  lemma SmallOffset(offset: nat)
    requires offset < TWO_32
    ensures offset % TWO_32 == offset
  {
  }

  lemma FreedCons(p: Pool, rest: seq<Pool>, marked: bool, address: nat)
    requires PoolsOk([p] + rest)
    ensures PoolOk(p) && PoolsOk(rest)
    ensures FreedChain([p] + rest, marked, address) ==
      if Holds(p, address)
      then (if Entry(p, address) in p.used then Freed else DoubleFree, [Without(p, Entry(p, address))] + rest)
      else (FreedChain(rest, marked, address).0, [p] + FreedChain(rest, marked, address).1)
  {
    assert ([p] + rest)[0] == p && ([p] + rest)[1..] == rest;
    forall i | 0 <= i < |rest| ensures PoolOk(rest[i]) { assert rest[i] == ([p] + rest)[i + 1]; }
    if Holds(p, address) && Entry(p, address) !in p.used {
      assert p.used - {Entry(p, address)} == p.used;
    }
  }

  lemma FirstOfNew(size: nat, zone: nat)
    ensures LowestFree({}, 0) == 0
    ensures Take(Pool(size, zone, {})) == Pool(size, zone, {0}) && Address(Pool(size, zone, {}), 0) == zone
  {
  }

  lemma AllFree(words: seq<bv32>)
    requires |words| == MAPS && forall i :: 0 <= i < MAPS ==> words[i] == 0xFFFF_FFFF
    ensures Marks(words, {})
  {
    forall w, b | 0 <= w < MAPS && 0 <= b < 32 ensures Bit(words[w], b) { AllOrNone(b); }
  }

  lemma ZeroIsFull(words: seq<bv32>, used: set<nat>, w: nat)
    requires Marks(words, used) && w < MAPS && words[w] == 0
    ensures forall k :: 32 * w <= k < 32 * w + 32 ==> k in used
  {
    forall k | 32 * w <= k < 32 * w + 32 ensures k in used {
      AllOrNone(k - 32 * w);
      assert 32 * w + (k - 32 * w) in used;
    }
  }

  lemma FirstFree(used: set<nat>, k: nat)
    requires k < COUNT && k !in used && forall j :: 0 <= j < k ==> j in used
    ensures LowestFree(used, 0) == k
  {
  }

  lemma TestSlot(words: seq<bv32>, used: set<nat>, w: nat, b: nat)
    requires Marks(words, used) && w < MAPS && b < 32
    ensures words[w] & Mask(Index(b)) == 0 <==> 32 * w + b in used
  {
    TestBit(words[w], Index(b));
    assert Bit(words[w], b) <==> BitAt(words[w], Index(b));
  }

  lemma ClearedAt(words: seq<bv32>, used: set<nat>, w: nat, b: nat, v: nat, c: nat)
    requires Marks(words, used) && w < MAPS && b < 32 && v < MAPS && c < 32
    ensures 32 * v + c in used + {32 * w + b} <==> !Bit(words[w := words[w] & !Mask(Index(b))][v], c)
  {
    hide Bit, Mask, Index;
    assert 32 * v + c in used <==> !Bit(words[v], c);
    if v == w { ClearBit(words[w], b, c); }
  }

  lemma Cleared(words: seq<bv32>, used: set<nat>, w: nat, b: nat)
    requires Marks(words, used) && w < MAPS && b < 32
    ensures Marks(words[w := words[w] & !Mask(Index(b))], used + {32 * w + b})
  {
    hide Bit, Mask, Index;
    var after := words[w := words[w] & !Mask(Index(b))];
    forall v, c | 0 <= v < MAPS && 0 <= c < 32 ensures 32 * v + c in used + {32 * w + b} <==> !Bit(after[v], c) {
      ClearedAt(words, used, w, b, v, c);
    }
  }

  lemma RaisedAt(words: seq<bv32>, used: set<nat>, w: nat, b: nat, v: nat, c: nat)
    requires Marks(words, used) && w < MAPS && b < 32 && v < MAPS && c < 32
    ensures 32 * v + c in used - {32 * w + b} <==> !Bit(words[w := words[w] | Mask(Index(b))][v], c)
  {
    hide Bit, Mask, Index;
    assert 32 * v + c in used <==> !Bit(words[v], c);
    if v == w { SetBit(words[w], b, c); }
  }

  lemma Raised(words: seq<bv32>, used: set<nat>, w: nat, b: nat)
    requires Marks(words, used) && w < MAPS && b < 32
    ensures Marks(words[w := words[w] | Mask(Index(b))], used - {32 * w + b})
  {
    hide Bit, Mask, Index;
    var after := words[w := words[w] | Mask(Index(b))];
    forall v, c | 0 <= v < MAPS && 0 <= c < 32 ensures 32 * v + c in used - {32 * w + b} <==> !Bit(after[v], c) {
      RaisedAt(words, used, w, b, v, c);
    }
  }

  ghost function Maps(chain: seq<MemPool>): set<array<bv32>> {
    set p | p in chain :: p.bitmap
  }

  /** Whether mapping a zone for the tail has failed. */
  ghost predicate Marked(chain: seq<MemPool>)
    reads chain
  {
    chain != [] && if |chain| == 1 then chain[0].start == MAP_FAILED else Marked(chain[1..])
  }

  ghost function Views(chain: seq<MemPool>): seq<Pool>
    reads chain
  {
    if |chain| <= 1 then [] else [chain[0].View()] + Views(chain[1..])
  }
}
