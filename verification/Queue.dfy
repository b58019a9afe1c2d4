/** The message queue at pointer level: two circular doubly linked lists, one of waiting
    messages and one of entries to use again, refine a FIFO sequence. */
module Queue {
  import opened Numbers

  datatype Pointer = Null | Pointer(address: nat)

  /** `home` is the head of the ring the entry is on, `serial` its number there, and
      `first` the number of the oldest entry on the ring this entry heads. */
  class Entry {
    var next: Entry
    var previous: Entry
    var message: Pointer
    ghost var home: Entry?
    ghost var serial: int
    ghost var first: int

    constructor (data: Pointer)
      ensures next == this && previous == this && message == data && home == null
    {
      next, previous, message := this, this, data;
      home, serial, first := null, 0, 0;
    }

    /** This entry as the head of a ring that holds `ring`, oldest first. */
    ghost predicate Heads(ring: seq<Entry>)
      reads this, ring
    {
      && home == null
      && previous == Neighbour(ring, 0) && next == Neighbour(ring, |ring| - 1)
      && forall i :: 0 <= i < |ring| ==>
           && ring[i].home == this && ring[i].serial == first + i
           && ring[i].previous == Neighbour(ring, i + 1) && ring[i].next == Neighbour(ring, i - 1)
    }

    ghost function Neighbour(ring: seq<Entry>, i: int): Entry {
      if 0 <= i < |ring| then ring[i] else this
    }

    method Insert(entry: Entry, ghost ring: seq<Entry>)
      requires Heads(ring) && entry != this && entry.home == null
      modifies this`next, entry`next, entry`previous, next`previous, entry`home, entry`serial
      ensures Heads(ring + [entry])
    {
      entry.next := next;
      entry.previous := this;
      next.previous := entry;
      next := entry;
      entry.home, entry.serial := this, first + |ring|;
    }

    /** Takes the oldest entry off the ring; a head that is alone takes itself. */
    method Remove(ghost ring: seq<Entry>) returns (entry: Entry)
      requires Heads(ring)
      modifies this`previous, previous.previous`next, previous`home, this`first
      ensures entry == Neighbour(ring, 0) && entry.home == null
      ensures Heads(if ring == [] then [] else ring[1..])
    {
      entry := previous;
      previous := entry.previous;
      previous.next := this;
      entry.home, first := null, first + 1;
    }

    /** The entries next to the head are its own. */
    lemma OwnNeighbours(ring: seq<Entry>)
      requires Heads(ring)
      ensures next.home in {null, this} && previous.home in {null, this} && previous.previous.home in {null, this}
    {
    }

    predicate Empty()
      reads this
    {
      next == this
    }
  }

  /** What the queue holds, oldest first, and how many entries were ever allocated. */
  datatype Fifo = Fifo(contents: seq<Pointer>, entries: nat)

  const EMPTY := Fifo([], 0)

  function Enqueued(f: Fifo, data: Pointer): Fifo {
    Fifo(f.contents + [data], if |f.contents| < f.entries then f.entries else f.entries + 1)
  }

  function Dequeued(f: Fifo): Fifo
    requires f.contents != []
  {
    Fifo(f.contents[1..], f.entries)
  }

  class Queue {
    const freelist: Entry
    const head: Entry
    ghost var unused: seq<Entry>
    ghost var queued: seq<Entry>
    ghost var contents: seq<Pointer>
    ghost var created: nat

    ghost predicate Listed()
      reads this`queued, this`contents, head, queued
    {
      && head.Heads(queued) && head.message == Null && |contents| == |queued|
      && forall i :: 0 <= i < |queued| ==> contents[i] == queued[i].message
    }

    ghost predicate Linked()
      reads this, freelist, head, unused, queued
    {
      freelist != head && Listed() && freelist.Heads(unused)
    }

    /** Every entry that was ever created is on one of the two rings. */
    ghost predicate Valid()
      reads this, freelist, head, unused, queued
    {
      Linked() && created == |queued| + |unused| && |contents| == |queued|
    }

    ghost function State(): Fifo
      reads this
    {
      Fifo(contents, created)
    }

    ghost function Entries(): set<Entry>
      reads this
    {
      (set e | e in queued) + (set e | e in unused)
    }

    constructor ()
      ensures Valid() && State() == EMPTY
      ensures fresh(freelist) && fresh(head)
    {
      freelist := new Entry(Null);
      head := new Entry(Null);
      unused, queued, contents, created := [], [], [], 0;
    }

    ghost predicate Loose(entry: Entry)
      reads entry`home
    {
      entry != head && entry != freelist && entry.home == null
    }

    method Reuse() returns (entry: Entry)
      requires Linked() && unused != []
      modifies this`unused, freelist`previous, freelist`first, freelist.previous`home, freelist.previous.previous`next
      ensures Linked() && Loose(entry) && entry == old(unused)[0] && unused == old(unused)[1..]
    {
      freelist.OwnNeighbours(unused);
      entry := freelist.Remove(unused);
      assert unchanged(head) && unchanged(queued);
      unused := unused[1..];
    }

    method Allocate(data: Pointer) returns (entry: Entry)
      requires Valid()
      modifies this`unused, this`created, freelist, unused
      ensures Linked() && Loose(entry) && entry.message == data
      ensures created == |queued| + |unused| + 1
      ensures unused == if old(unused) == [] then [] else old(unused)[1..]
      ensures fresh(entry) || entry in old(unused)
    {
      if freelist.Empty() {
        entry := new Entry(data);
        created := created + 1;
      } else {
        entry := Reuse();
        entry.message := data;
      }
    }

    method Enqueue(data: Pointer)
      requires Valid()
      modifies this, freelist, head, Entries()
      ensures Valid() && State() == Enqueued(old(State()), data)
      ensures fresh(Entries() - old(Entries()))
    {
      hide Linked;
      var entry := Allocate(data);
      Append(entry);
    }

    method Append(entry: Entry)
      requires Linked() && Loose(entry)
      modifies this`queued, this`contents, head, entry, queued
      ensures Linked()
      ensures contents == old(contents) + [old(entry.message)] && queued == old(queued) + [entry]
    {
      head.OwnNeighbours(queued);
      head.Insert(entry, queued);
      assert unchanged(freelist) && unchanged(unused);
      queued, contents := queued + [entry], contents + [entry.message];
    }

    method Unlink() returns (entry: Entry)
      requires Linked()
      modifies this`queued, this`contents, head`previous, head`first, head.previous`home, head.previous.previous`next
      ensures Linked() && unused == old(unused)
      ensures old(queued) == [] ==> entry == head && queued == []
      ensures old(queued) != [] ==> Loose(entry) && entry == old(queued)[0] && queued == old(queued)[1..]
                                    && contents == old(contents)[1..] && entry.message == old(contents)[0]
    {
      head.OwnNeighbours(queued);
      entry := head.Remove(queued);
      assert unchanged(freelist) && unchanged(unused);
      if queued != [] {
        queued, contents := queued[1..], contents[1..];
      }
    }

    method Recycle(entry: Entry)
      requires Linked() && (Loose(entry) || (entry == head && queued == []))
      modifies this`unused, freelist`next, freelist.next`previous, entry`next, entry`previous, entry`home, entry`serial
      ensures unused == old(unused) + [entry] && freelist.Heads(unused)
      ensures if entry == head then !IsEmpty() else Linked()
    {
      freelist.OwnNeighbours(unused);
      freelist.Insert(entry, unused);
      unused := unused + [entry];
    }

    /** On a queue that is empty this is no pop: it hands the head itself to the list of
        unused entries. */
    method Dequeue() returns (data: Pointer)
      requires Valid()
      modifies this, freelist, head, Entries()
      ensures Valid() <==> old(State()).contents != []
      ensures Valid() ==> data == old(State()).contents[0] && State() == Dequeued(old(State()))
      ensures Valid() ==> Entries() <= old(Entries())
      ensures !Valid() ==> data == Null && freelist.Heads(old(unused) + [head]) && !IsEmpty()
    {
      var entry := Unlink();
      data := entry.message;
      Recycle(entry);
    }

    predicate IsEmpty()
      reads head
    {
      head.Empty()
    }

    method Depth() returns (depth: nat)
      requires Valid()
      ensures depth == |State().contents|
      ensures IsEmpty() <==> depth == 0
    {
      depth := 0;
      var dot := head.next;
      while dot != head
        invariant depth <= |queued| && dot == head.Neighbour(queued, |queued| - 1 - depth)
        decreases |queued| - depth
      {
        depth := depth + 1;
        dot := dot.next;
      }
    }
  }

  // ----- every run -----

  datatype Op = Put(data: Pointer) | Take

  /** Whether the run takes only from a queue that holds something. */
  predicate Possible(f: Fifo, ops: seq<Op>)
    decreases |ops|
  {
    ops == [] || ((ops[0].Take? ==> f.contents != []) && Possible(Step(f, ops[0]), ops[1..]))
  }

  function Step(f: Fifo, op: Op): Fifo {
    match op
    case Put(data) => Enqueued(f, data)
    case Take => if f.contents == [] then f else Dequeued(f)
  }

  function After(f: Fifo, ops: seq<Op>): Fifo
    decreases |ops|
  {
    if ops == [] then f else After(Step(f, ops[0]), ops[1..])
  }

  function PutIn(ops: seq<Op>): seq<Pointer> {
    if ops == [] then [] else (if ops[0].Put? then [ops[0].data] else []) + PutIn(ops[1..])
  }

  function TakenOut(f: Fifo, ops: seq<Op>): seq<Pointer>
    requires Possible(f, ops)
    decreases |ops|
  {
    if ops == [] then []
    else (if ops[0].Take? then [f.contents[0]] else []) + TakenOut(Step(f, ops[0]), ops[1..])
  }

  function Peak(f: Fifo, ops: seq<Op>): nat
    decreases |ops|
  {
    if ops == [] then |f.contents| else Max(|f.contents|, Peak(Step(f, ops[0]), ops[1..]))
  }

  /** Over any run that takes only when there is something, the messages come out in the
      order they were put in, with none lost or there twice. */
  lemma {:induction false} FirstInFirstOut(f: Fifo, ops: seq<Op>)
    requires Possible(f, ops)
    ensures f.contents + PutIn(ops) == TakenOut(f, ops) + After(f, ops).contents
    decreases |ops|
  {
    if ops != [] {
      FirstInFirstOut(Step(f, ops[0]), ops[1..]);
      if ops[0].Put? {
        assert f.contents + PutIn(ops) == Step(f, ops[0]).contents + PutIn(ops[1..]);
      } else {
        assert f.contents + PutIn(ops) == [f.contents[0]] + (Step(f, ops[0]).contents + PutIn(ops[1..]));
      }
    }
  }

  /** As many entries are allocated as the queue was ever deep. */
  lemma {:induction false} EntriesArePeakDepth(f: Fifo, ops: seq<Op>)
    requires |f.contents| <= f.entries
    ensures After(f, ops).entries == Max(f.entries, Peak(f, ops))
    decreases |ops|
  {
    if ops != [] { EntriesArePeakDepth(Step(f, ops[0]), ops[1..]); }
  }

  /** Runs the operations on a queue and hands back what was taken out. */
  method RunOn(q: Queue, ops: seq<Op>) returns (taken: seq<Pointer>)
    requires q.Valid() && Possible(q.State(), ops)
    modifies q, q.freelist, q.head, q.Entries()
    ensures q.Valid() && q.State() == After(old(q.State()), ops)
    ensures taken == TakenOut(old(q.State()), ops)
    decreases |ops|
  {
    hide Queue.Valid, Queue.Entries;
    if ops == [] { return []; }
    match ops[0] {
      case Put(data) =>
        q.Enqueue(data);
        taken := RunOn(q, ops[1..]);
      case Take =>
        var first := q.Dequeue();
        var rest := RunOn(q, ops[1..]);
        taken := [first] + rest;
    }
  }
}
