/** The slab allocator over values: a chain of pools, each with the places of its slots
    in use.  What allocating and freeing do, and what every run keeps. */
module PoolChain {
  import opened Numbers

  const COUNT := 512
  const TWO_32 := 0x1_0000_0000
  const TWO_64 := 0x1_0000_0000_0000_0000

  /** A pool of slots of `size` bytes from address `start` on; `used` are the slots taken. */
  datatype Pool = Pool(size: nat, start: nat, used: set<nat>)

  /** The chain of pools.  The tail of the chain is a pool without slots; it is `marked`
      when mapping a zone for it has failed. */
  datatype Chain = Chain(pools: seq<Pool>, marked: bool)

  datatype Block = Block(address: nat, size: nat)

  function Bytes(p: Pool): nat { COUNT * p.size }

  predicate Apart(start: nat, length: nat, start': nat, length': nat) {
    start + length <= start' || start' + length' <= start
  }

  predicate PoolOk(p: Pool) {
    0 < p.size && 0 < p.start && p.start + Bytes(p) <= TWO_64 && forall k :: k in p.used ==> k < COUNT
  }

  predicate PoolsOk(pools: seq<Pool>) {
    forall i :: 0 <= i < |pools| ==> PoolOk(pools[i])
  }

  ghost predicate Valid(pools: seq<Pool>) {
    && PoolsOk(pools)
    && forall i, j :: 0 <= i < j < |pools| ==>
         Apart(pools[i].start, Bytes(pools[i]), pools[j].start, Bytes(pools[j]))
  }

  /** A zone the system may map: it overlaps nothing that is mapped. */
  ghost predicate Mappable(pools: seq<Pool>, start: nat, length: nat) {
    && 0 < start && start + length <= TWO_64
    && forall i :: 0 <= i < |pools| ==> Apart(pools[i].start, Bytes(pools[i]), start, length)
  }

  // ----- allocate -----

  /** The lowest slot that is free, from `k` on. */
  function LowestFree(used: set<nat>, k: nat): (r: nat)
    requires k <= COUNT
    ensures k <= r <= COUNT
    ensures forall j :: k <= j < r ==> j in used
    ensures r < COUNT ==> r !in used
    decreases COUNT - k
  {
    if k == COUNT || k !in used then k else LowestFree(used, k + 1)
  }

  function Address(p: Pool, k: nat): nat {
    p.start + k * p.size
  }

  predicate Serves(p: Pool, size: nat) {
    p.size == size && LowestFree(p.used, 0) < COUNT
  }

  function Take(p: Pool): Pool {
    p.(used := p.used + {LowestFree(p.used, 0)})
  }

  /** The first pool of the size with a free slot gives its lowest one; if there is none a
      new pool is put at the end of the chain, in the zone at `zone`. */
  function Allocated(pools: seq<Pool>, size: nat, zone: nat): (r: (seq<Pool>, nat))
  {
    if pools == [] then ([Pool(size, zone, {0})], zone)
    else if Serves(pools[0], size) then
      ([Take(pools[0])] + pools[1..], Address(pools[0], LowestFree(pools[0].used, 0)))
    else
      var r := Allocated(pools[1..], size, zone);
      ([pools[0]] + r.0, r.1)
  }

  /** The pool that serves, or the number of pools. */
  function Server(pools: seq<Pool>, size: nat): (i: nat)
    ensures i <= |pools|
    ensures i < |pools| ==> Serves(pools[i], size)
    ensures forall j :: 0 <= j < i ==> !Serves(pools[j], size)
  {
    if pools == [] || Serves(pools[0], size) then 0 else 1 + Server(pools[1..], size)
  }

  lemma {:induction false} AllocatedAt(pools: seq<Pool>, size: nat, zone: nat)
    ensures var i := Server(pools, size);
            Allocated(pools, size, zone) ==
              if i < |pools|
              then (pools[i := Take(pools[i])], Address(pools[i], LowestFree(pools[i].used, 0)))
              else (pools + [Pool(size, zone, {0})], zone)
  {
    if pools == [] {
      assert pools + [Pool(size, zone, {0})] == [Pool(size, zone, {0})];
    } else if !Serves(pools[0], size) {
      AllocatedAt(pools[1..], size, zone);
      var i := Server(pools, size);
      if i < |pools| {
        assert [pools[0]] + pools[1..][i - 1 := Take(pools[i])] == pools[i := Take(pools[i])];
      } else {
        assert [pools[0]] + (pools[1..] + [Pool(size, zone, {0})]) == pools + [Pool(size, zone, {0})];
      }
    } else {
      assert [Take(pools[0])] + pools[1..] == pools[0 := Take(pools[0])];
    }
  }

  /** A block in use. */
  predicate Live(pools: seq<Pool>, i: nat, k: nat) {
    i < |pools| && k in pools[i].used
  }

  lemma AllocatedValid(pools: seq<Pool>, size: nat, zone: nat)
    requires Valid(pools) && 0 < size && Mappable(pools, zone, COUNT * size)
    ensures Valid(Allocated(pools, size, zone).0)
  {
    AllocatedAt(pools, size, zone);
  }

  /** The slots of one pool do not overlap, and lie inside it. */
  lemma SlotsApart(p: Pool, k: nat, l: nat)
    requires k < COUNT && l < COUNT
    ensures k != l ==> Apart(Address(p, k), p.size, Address(p, l), p.size)
    ensures p.start <= Address(p, k) && Address(p, k) + p.size <= p.start + Bytes(p)
  {
    Multiples(p.size, k, l);
    Multiples(p.size, l, k);
    Multiples(p.size, k, COUNT);
  }

  lemma Quotient(offset: nat, size: nat, k: nat, inner: nat)
    requires inner < size && offset == k * size + inner
    ensures offset / size == k
  {
    var q := offset / size;
    assert q * size <= offset < q * size + size;
    Multiples(size, q, k);
    Multiples(size, k, q);
  }

  /** The pool and the slot that an allocation takes. */
  function Slot(pools: seq<Pool>, size: nat): (r: (nat, nat))
    ensures r.0 <= |pools| && r.1 < COUNT
  {
    var i := Server(pools, size);
    (i, if i < |pools| then LowestFree(pools[i].used, 0) else 0)
  }

  /** Allocating takes one slot that was free, in a pool of the asked size, and no other
      slot changes. */
  lemma AllocatedTakesOne(pools: seq<Pool>, size: nat, zone: nat)
    ensures var (i, k) := Slot(pools, size);
            var (after, address) := Allocated(pools, size, zone);
            && i < |after| && after[i].size == size && address == Address(after[i], k)
            && !Live(pools, i, k) && Live(after, i, k)
            && (forall j, l :: Live(after, j, l) <==> Live(pools, j, l) || (j == i && l == k))
            && |pools| <= |after| && (forall j :: 0 <= j < |pools| ==>
                 after[j].size == pools[j].size && after[j].start == pools[j].start)
            && (forall l: nat :: l < k ==> Live(pools, i, l))
            && (forall j, l: nat :: 0 <= j < i && l < 512 && pools[j].size == size ==> Live(pools, j, l))
  {
    AllocatedAt(pools, size, zone);
  }

  /** Two different live blocks never overlap. */
  lemma BlocksApart(pools: seq<Pool>, i: nat, k: nat, j: nat, l: nat)
    requires Valid(pools) && i < |pools| && j < |pools| && k < COUNT && l < COUNT && (i != j || k != l)
    ensures Apart(Address(pools[i], k), pools[i].size, Address(pools[j], l), pools[j].size)
  {
    SlotsApart(pools[i], k, if i == j then l else k);
    SlotsApart(pools[j], l, l);
  }

  /** The block handed out lies inside a pool of the asked size and overlaps no live block. */
  lemma AllocatedIsFresh(pools: seq<Pool>, size: nat, zone: nat, j: nat, l: nat)
    requires Valid(pools) && 0 < size && Mappable(pools, zone, COUNT * size)
    ensures var (after, address) := Allocated(pools, size, zone);
            var i := Slot(pools, size).0;
            && i < |after| && after[i].size == size
            && after[i].start <= address && address + size <= after[i].start + Bytes(after[i])
            && (Live(pools, j, l) ==> Apart(Address(pools[j], l), pools[j].size, address, size))
  {
    AllocatedTakesOne(pools, size, zone);
    AllocatedValid(pools, size, zone);
    var (i, k) := Slot(pools, size);
    var after := Allocated(pools, size, zone).0;
    SlotsApart(after[i], k, k);
    if Live(pools, j, l) {
      assert Live(after, j, l);
      BlocksApart(after, j, l, i, k);
    }
  }

  // ----- free -----

  datatype Outcome = Freed | DoubleFree | InvalidObject | DivideByZero

  /** The length of the zone as `free` computes it, in 32 bits. */
  function Length32(p: Pool): nat { Bytes(p) % TWO_32 }

  predicate Holds(p: Pool, address: nat) {
    p.start <= address < p.start + Length32(p)
  }

  function Entry(p: Pool, address: nat): (k: nat)
    requires PoolOk(p) && Holds(p, address)
    ensures k < COUNT
  {
    EntryInPool(p, address);
    (address - p.start) / p.size
  }

  lemma EntryInPool(p: Pool, address: nat)
    requires PoolOk(p) && Holds(p, address)
    ensures 0 <= (address - p.start) / p.size < COUNT
  {
    var k := (address - p.start) / p.size;
    Multiples(p.size, COUNT - 1, k);
  }

  function FreedIn(p: Pool, address: nat): (r: (Outcome, Pool))
    requires PoolOk(p) && Holds(p, address)
  {
    var k := Entry(p, address);
    if k in p.used then (Freed, p.(used := p.used - {k})) else (DoubleFree, p)
  }

  /** The tail without slots traps or, when it is marked, reports the address. */
  function FreedChain(pools: seq<Pool>, marked: bool, address: nat): (r: (Outcome, seq<Pool>))
    requires PoolsOk(pools)
  {
    if pools == [] then (if marked then InvalidObject else DivideByZero, [])
    else if Holds(pools[0], address) then
      var r := FreedIn(pools[0], address);
      (r.0, [r.1] + pools[1..])
    else
      var r := FreedChain(pools[1..], marked, address);
      (r.0, [pools[0]] + r.1)
  }

  /** Pools whose zones fit in 32 bits. */
  ghost predicate Fit32(pools: seq<Pool>) {
    forall i :: 0 <= i < |pools| ==> Bytes(pools[i]) < TWO_32
  }

  predicate Inside(p: Pool, address: nat) {
    p.start <= address < p.start + Bytes(p)
  }

  lemma HoldsWhatIsInside(p: Pool, address: nat)
    requires Bytes(p) < TWO_32
    ensures Holds(p, address) <==> Inside(p, address)
  {
  }

  lemma InsideOne(pools: seq<Pool>, i: nat, j: nat, address: nat)
    requires Valid(pools) && i < j < |pools| && Inside(pools[j], address)
    ensures !Inside(pools[i], address)
  {
    assert Apart(pools[i].start, Bytes(pools[i]), pools[j].start, Bytes(pools[j]));
  }

  lemma {:induction false} FreedAt(pools: seq<Pool>, marked: bool, address: nat, i: nat)
    requires Valid(pools) && Fit32(pools) && i < |pools| && Inside(pools[i], address)
    ensures Holds(pools[i], address)
    ensures FreedChain(pools, marked, address)
            == (FreedIn(pools[i], address).0, pools[i := FreedIn(pools[i], address).1])
  {
    hide PoolOk, Holds, Inside, FreedIn;
    HoldsWhatIsInside(pools[0], address);
    if i > 0 {
      InsideOne(pools, 0, i, address);
      FreedAt(pools[1..], marked, address, i - 1);
      var p := FreedIn(pools[i], address).1;
      assert [pools[0]] + pools[1..][i - 1 := p] == pools[i := p];
    } else {
      var p := FreedIn(pools[0], address).1;
      assert [p] + pools[1..] == pools[0 := p];
    }
  }

  lemma {:induction false} FreedNowhere(pools: seq<Pool>, marked: bool, address: nat)
    requires forall i :: 0 <= i < |pools| ==> PoolOk(pools[i]) && !Holds(pools[i], address)
    ensures FreedChain(pools, marked, address) == (if marked then InvalidObject else DivideByZero, pools)
  {
    if pools != [] {
      FreedNowhere(pools[1..], marked, address);
      assert [pools[0]] + pools[1..] == pools;
    }
  }

  lemma EntryOfAddress(p: Pool, k: nat, inner: nat)
    requires PoolOk(p) && Bytes(p) < TWO_32 && k < COUNT && inner < p.size
    ensures Inside(p, Address(p, k) + inner) && Entry(p, Address(p, k) + inner) == k
  {
    SlotsApart(p, k, k);
    Quotient(k * p.size + inner, p.size, k, inner);
    assert Address(p, k) + inner - p.start == k * p.size + inner;
  }

  /** Freeing any address in a slot frees that slot's block if it is live and reports a
      double free if it is not; nothing else changes. */
  lemma FreeOfASlot(pools: seq<Pool>, marked: bool, i: nat, k: nat, inner: nat)
    requires Valid(pools) && Fit32(pools) && i < |pools| && k < COUNT && inner < pools[i].size
    ensures var (outcome, after) := FreedChain(pools, marked, Address(pools[i], k) + inner);
            if Live(pools, i, k)
            then outcome == Freed && after == pools[i := pools[i].(used := pools[i].used - {k})]
            else outcome == DoubleFree && after == pools
  {
    EntryOfAddress(pools[i], k, inner);
    FreedAt(pools, marked, Address(pools[i], k) + inner, i);
  }

  /** An address in no zone never gets as far as being reported, unless the last zone that was asked
      for could not be mapped: the division by the tail's size traps. */
  lemma FreeOfAForeignAddress(pools: seq<Pool>, marked: bool, address: nat)
    requires Valid(pools) && forall i :: 0 <= i < |pools| ==> !Inside(pools[i], address)
    ensures FreedChain(pools, marked, address) == (if marked then InvalidObject else DivideByZero, pools)
  {
    forall i | 0 <= i < |pools| ensures !Holds(pools[i], address) {
      assert Length32(pools[i]) <= Bytes(pools[i]);
    }
    FreedNowhere(pools, marked, address);
  }

  /** Every block of a pool can be found again exactly when the zone fits in 32 bits. */
  lemma FoundAgainIffFits32(p: Pool)
    requires PoolOk(p)
    ensures (forall k :: 0 <= k < COUNT ==> Holds(p, Address(p, k))) <==> Bytes(p) < TWO_32
  {
    if Bytes(p) < TWO_32 {
      forall k | 0 <= k < COUNT ensures Holds(p, Address(p, k)) { SlotsApart(p, k, k); }
    } else {
      assert Length32(p) <= Bytes(p) - TWO_32;
      assert Address(p, COUNT - 1) == p.start + Bytes(p) - p.size;
      assert p.size <= TWO_32 || Length32(p) < TWO_32;
      assert !Holds(p, Address(p, COUNT - 1));
    }
  }

  // ----- every run -----

  /** A run allocates blocks whose zones fit in 32 bits, and frees live blocks. */
  datatype Op = New(size: nat, zone: nat) | Delete(pool: nat, slot: nat)

  ghost predicate Sound(pools: seq<Pool>) {
    Valid(pools) && Fit32(pools)
  }

  ghost predicate Allowed(pools: seq<Pool>, op: Op) {
    match op
    case New(size, zone) => 0 < size && COUNT * size < TWO_32 && Mappable(pools, zone, COUNT * size)
    case Delete(i, k) => Live(pools, i, k)
  }

  ghost function Step(pools: seq<Pool>, op: Op): (after: seq<Pool>)
    requires Sound(pools) && Allowed(pools, op)
    ensures Sound(after)
  {
    match op
    case New(size, zone) =>
      AllocatedValid(pools, size, zone);
      AllocatedAt(pools, size, zone);
      Allocated(pools, size, zone).0
    case Delete(i, k) =>
      FreeOfASlot(pools, false, i, k, 0);
      FreedChain(pools, false, Address(pools[i], k)).1
  }

  ghost predicate Possible(pools: seq<Pool>, ops: seq<Op>)
    requires Sound(pools)
    decreases |ops|
  {
    ops == [] || (Allowed(pools, ops[0]) && Possible(Step(pools, ops[0]), ops[1..]))
  }

  ghost function Run(pools: seq<Pool>, ops: seq<Op>): (after: seq<Pool>)
    requires Sound(pools) && Possible(pools, ops)
    ensures Sound(after)
    decreases |ops|
  {
    if ops == [] then pools else Run(Step(pools, ops[0]), ops[1..])
  }

  function Grown(pools: seq<Pool>, size: nat, zone: nat): seq<Pool> {
    var i := Server(pools, size);
    if i < |pools| then pools[i := Take(pools[i])] else pools + [Pool(size, zone, {0})]
  }

  function Without(p: Pool, k: nat): Pool {
    p.(used := p.used - {k})
  }

  lemma StepIs(pools: seq<Pool>, op: Op)
    requires Sound(pools) && Allowed(pools, op)
    ensures Step(pools, op) == match op
              case New(size, zone) => Grown(pools, size, zone)
              case Delete(i, k) => pools[i := Without(pools[i], k)]
  {
    match op
    case New(size, zone) => AllocatedAt(pools, size, zone);
    case Delete(i, k) => FreeOfASlot(pools, false, i, k, 0);
  }

  /** What a step does to the live blocks. */
  lemma StepLive(pools: seq<Pool>, op: Op)
    requires Sound(pools) && Allowed(pools, op)
    ensures var after := Step(pools, op);
            match op
            case New(size, zone) =>
              var slot := Slot(pools, size);
              !Live(pools, slot.0, slot.1)
              && forall j: nat, l: nat :: Live(after, j, l) <==> Live(pools, j, l) || (j, l) == slot
            case Delete(i, k) =>
              forall j: nat, l: nat :: Live(after, j, l) <==> Live(pools, j, l) && (j != i || l != k)
  {
    hide Sound, Step;
    StepIs(pools, op);
  }

  // Counting the blocks and the pools of one size.

  function LiveCount(pools: seq<Pool>, size: nat): nat {
    if pools == [] then 0
    else LiveCount(pools[..|pools| - 1], size) + if Last(pools).size == size then |Last(pools).used| else 0
  }

  function PoolCount(pools: seq<Pool>, size: nat): nat {
    if pools == [] then 0
    else PoolCount(pools[..|pools| - 1], size) + if Last(pools).size == size then 1 else 0
  }

  function Last(pools: seq<Pool>): Pool
    requires pools != []
  {
    pools[|pools| - 1]
  }

  lemma {:induction false} CountsOfUpdate(pools: seq<Pool>, i: nat, p: Pool, size: nat)
    requires i < |pools| && p.size == pools[i].size
    ensures PoolCount(pools[i := p], size) == PoolCount(pools, size)
    ensures LiveCount(pools[i := p], size)
            == LiveCount(pools, size) + if p.size == size then |p.used| - |pools[i].used| else 0
  {
    var n := |pools| - 1;
    if i < n {
      CountsOfUpdate(pools[..n], i, p, size);
      assert pools[i := p][..n] == pools[..n][i := p];
    } else {
      assert pools[i := p][..n] == pools[..n];
    }
  }

  lemma {:induction false} FirstNumbers(used: set<nat>, n: nat)
    requires forall k :: k in used ==> k < n
    ensures |used| <= n
    ensures (forall k :: 0 <= k < n ==> k in used) ==> |used| == n
    decreases n
  {
    if n > 0 {
      FirstNumbers(used - {n - 1}, n - 1);
    }
  }

  /** No pool has more than 512 live blocks, and when none of the size serves they are
      all full. */
  lemma {:induction false} CountsOfFull(pools: seq<Pool>, size: nat)
    requires forall i :: 0 <= i < |pools| ==> PoolOk(pools[i])
    ensures LiveCount(pools, size) <= COUNT * PoolCount(pools, size)
    ensures (forall i :: 0 <= i < |pools| ==> !Serves(pools[i], size)) ==>
              LiveCount(pools, size) == COUNT * PoolCount(pools, size)
  {
    if pools != [] {
      CountsOfFull(pools[..|pools| - 1], size);
      FirstNumbers(Last(pools).used, COUNT);
    }
  }

  /** The most blocks of the size that were live at once. */
  ghost function Peak(pools: seq<Pool>, ops: seq<Op>, size: nat): nat
    requires Sound(pools) && Possible(pools, ops)
    decreases |ops|
  {
    if ops == [] then LiveCount(pools, size)
    else Max(LiveCount(pools, size), Peak(Step(pools, ops[0]), ops[1..], size))
  }

  /** The smallest number of pools that hold `live` blocks. */
  function PoolsFor(live: nat): nat {
    (live + COUNT - 1) / COUNT
  }

  lemma GrownCounts(pools: seq<Pool>, s: nat, zone: nat, size: nat)
    ensures var after := Grown(pools, s, zone);
            var served := Server(pools, s) < |pools|;
            && LiveCount(after, size) == LiveCount(pools, size) + (if s == size then 1 else 0)
            && PoolCount(after, size) == PoolCount(pools, size) + (if s == size && !served then 1 else 0)
  {
    var i := Server(pools, s);
    if i < |pools| {
      CountsOfUpdate(pools, i, Take(pools[i]), size);
    } else {
      var after := pools + [Pool(s, zone, {0})];
      assert after[..|pools|] == pools;
      assert |{0}| == 1;
    }
  }

  lemma StepCounts(pools: seq<Pool>, op: Op, size: nat)
    requires Sound(pools) && Allowed(pools, op)
    ensures PoolCount(Step(pools, op), size)
            == Max(PoolCount(pools, size), PoolsFor(LiveCount(Step(pools, op), size)))
  {
    hide Step, Allowed, Live, Grown, LiveCount, PoolCount;
    StepIs(pools, op);
    CountsOfFull(pools, size);
    match op
    case New(s, zone) =>
      GrownCounts(pools, s, zone, size);
      CountsOfFull(Step(pools, op), size);
    case Delete(i, k) =>
      assert k in pools[i].used by { DeletesLive(pools, op); }
      CountsOfUpdate(pools, i, Without(pools[i], k), size);
  }

  lemma DeletesLive(pools: seq<Pool>, op: Op)
    requires Allowed(pools, op) && op.Delete?
    ensures op.pool < |pools| && op.slot in pools[op.pool].used
  {
  }

  /** There are as many pools of a size as its peak number of live blocks asks for. */
  lemma {:induction false} PoolsArePeak(pools: seq<Pool>, ops: seq<Op>, size: nat)
    requires Sound(pools) && Possible(pools, ops)
    ensures PoolCount(Run(pools, ops), size) == Max(PoolCount(pools, size), PoolsFor(Peak(pools, ops, size)))
    decreases |ops|
  {
    CountsOfFull(pools, size);
    if ops != [] {
      StepCounts(pools, ops[0], size);
      PoolsArePeak(Step(pools, ops[0]), ops[1..], size);
    }
  }

  /** Whether a run hands out the address again. */
  ghost predicate HandsOut(pools: seq<Pool>, ops: seq<Op>, address: nat)
    requires Sound(pools) && Possible(pools, ops)
    decreases |ops|
  {
    && ops != []
    && ((ops[0].New? && Allocated(pools, ops[0].size, ops[0].zone).1 == address)
        || HandsOut(Step(pools, ops[0]), ops[1..], address))
  }

  /** After a block was freed, freeing it once more is reported however the run went on,
      as long as its address was not handed out again. */
  lemma {:induction false} SecondFreeIsReported(pools: seq<Pool>, ops: seq<Op>, marked: bool, i: nat, k: nat)
    requires Sound(pools) && Possible(pools, ops) && i < |pools| && k < COUNT && !Live(pools, i, k)
    requires !HandsOut(pools, ops, Address(pools[i], k))
    ensures FreedChain(Run(pools, ops), marked, Address(pools[i], k)) == (DoubleFree, Run(pools, ops))
    decreases |ops|
  {
    if ops == [] {
      FreeOfASlot(pools, marked, i, k, 0);
    } else {
      StepLive(pools, ops[0]);
      StepKeepsPlaces(pools, ops[0], i);
      if ops[0].New? { AllocatedTakesOne(pools, ops[0].size, ops[0].zone); }
      SecondFreeIsReported(Step(pools, ops[0]), ops[1..], marked, i, k);
    }
  }

  lemma StepKeepsPlaces(pools: seq<Pool>, op: Op, i: nat)
    requires Sound(pools) && Allowed(pools, op) && i < |pools|
    ensures i < |Step(pools, op)|
    ensures Step(pools, op)[i].size == pools[i].size && Step(pools, op)[i].start == pools[i].start
  {
    match op
    case New(size, zone) => AllocatedTakesOne(pools, size, zone);
    case Delete(j, k) => FreeOfASlot(pools, false, j, k, 0);
  }
}
