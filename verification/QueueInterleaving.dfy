/** One producer and one consumer thread on the message queue, interleaved wherever a
    lock is taken or a shared field is read. */
module QueueInterleaving {
  import opened Numbers

  type Data = nat

  /** Where the producer is inside `enqueue`, and the entry it holds. */
  datatype Producer =
    | Idle
    | TestingUnused(data: Data)
    | TakingUnused(data: Data)
    | Filling(data: Data, entry: nat)
    | Inserting(entry: nat)
    | Signalling

  /** Where the consumer is inside `wait` and the `dequeue` that follows it. */
  datatype Consumer =
    | Away
    | WantsLock
    | TestingEmpty
    | Asleep
    | Woken
    | Unlocking
    | Removing
    | Reading(entry: nat)
    | Recycling(entry: nat)

  /** Both lists are oldest first; an entry is known by its number.  `locked` is the lock
      that goes with the condition variable. */
  datatype State = State(
    messages: seq<nat>, unused: seq<nat>, stored: map<nat, Data>, created: nat, locked: bool,
    producer: Producer, consumer: Consumer, sent: seq<Data>, received: seq<Data>)

  const INITIAL := State([], [], map[], 0, false, Idle, Away, [], [])

  datatype Step = Enqueue(data: Data) | ProducerMoves | Wait | ConsumerMoves | SpuriousWakeUp

  predicate Enabled(s: State, step: Step) {
    match step
    case Enqueue(_) => s.producer.Idle?
    case ProducerMoves => !s.producer.Idle? && (s.producer.Signalling? ==> !s.locked)
    case Wait => s.consumer.Away?
    case ConsumerMoves =>
      && !s.consumer.Away? && !s.consumer.Asleep?
      && (s.consumer.WantsLock? || s.consumer.Woken? ==> !s.locked)
    case SpuriousWakeUp => s.consumer.Asleep?
  }

  /** Removing from an empty ring does not occur; see `Sound`. */
  function Oldest(ring: seq<nat>): (nat, seq<nat>) {
    if ring == [] then (0, []) else (ring[0], ring[1..])
  }

  function Get(stored: map<nat, Data>, entry: nat): Data {
    if entry in stored then stored[entry] else 0
  }

  function ProducerNext(s: State): State {
    match s.producer
    case Idle => s
    case TestingUnused(data) =>
      if s.unused == []
      then s.(producer := Inserting(s.created), stored := s.stored[s.created := data], created := s.created + 1)
      else s.(producer := TakingUnused(data))
    case TakingUnused(data) =>
      var (entry, rest) := Oldest(s.unused);
      s.(producer := Filling(data, entry), unused := rest)
    case Filling(data, entry) =>
      s.(producer := Inserting(entry), stored := s.stored[entry := data])
    case Inserting(entry) =>
      s.(producer := Signalling, messages := s.messages + [entry])
    case Signalling =>
      s.(producer := Idle, consumer := if s.consumer.Asleep? then Woken else s.consumer)
  }

  function ConsumerNext(s: State): State {
    match s.consumer
    case Away => s
    case Asleep => s
    case WantsLock => s.(consumer := TestingEmpty, locked := true)
    case Woken => s.(consumer := TestingEmpty, locked := true)
    case TestingEmpty =>
      if s.messages == [] then s.(consumer := Asleep, locked := false) else s.(consumer := Unlocking)
    case Unlocking => s.(consumer := Removing, locked := false)
    case Removing =>
      var (entry, rest) := Oldest(s.messages);
      s.(consumer := Reading(entry), messages := rest)
    case Reading(entry) =>
      s.(consumer := Recycling(entry), received := s.received + [Get(s.stored, entry)])
    case Recycling(entry) =>
      s.(consumer := Away, unused := s.unused + [entry])
  }

  function Next(s: State, step: Step): State
    requires Enabled(s, step)
  {
    match step
    case Enqueue(data) => s.(producer := TestingUnused(data), sent := s.sent + [data])
    case ProducerMoves => ProducerNext(s)
    case Wait => s.(consumer := WantsLock)
    case ConsumerMoves => ConsumerNext(s)
    case SpuriousWakeUp => s.(consumer := Woken)
  }

  predicate Possible(s: State, steps: seq<Step>)
    decreases |steps|
  {
    steps == [] || (Enabled(s, steps[0]) && Possible(Next(s, steps[0]), steps[1..]))
  }

  function Run(s: State, steps: seq<Step>): State
    requires Possible(s, steps)
    decreases |steps|
  {
    if steps == [] then s else Run(Next(s, steps[0]), steps[1..])
  }

  // ----- the invariant -----

  predicate ProducerHolds(s: State, entry: nat) {
    (s.producer.Filling? || s.producer.Inserting?) && s.producer.entry == entry
  }

  predicate ConsumerHolds(s: State, entry: nat) {
    (s.consumer.Reading? || s.consumer.Recycling?) && s.consumer.entry == entry
  }

  function Copies(ring: seq<nat>, entry: nat): nat {
    multiset(ring)[entry]
  }

  /** In how many places an entry is. */
  function Places(s: State, entry: nat): nat {
    Copies(s.messages, entry) + Copies(s.unused, entry)
    + One(ProducerHolds(s, entry)) + One(ConsumerHolds(s, entry))
  }

  ghost predicate Conserved(s: State) {
    forall entry: nat :: Places(s, entry) == One(entry < s.created)
  }

  function Contents(stored: map<nat, Data>, ring: seq<nat>): (r: seq<Data>)
    ensures |r| == |ring| && forall i :: 0 <= i < |ring| ==> r[i] == Get(stored, ring[i])
  {
    seq(|ring|, i requires 0 <= i < |ring| => Get(stored, ring[i]))
  }

  /** What the producer was given and has not put in the queue. */
  function OnItsWay(s: State): seq<Data> {
    match s.producer
    case TestingUnused(data) => [data]
    case TakingUnused(data) => [data]
    case Filling(data, _) => [data]
    case Inserting(entry) => [Get(s.stored, entry)]
    case _ => []
  }

  /** What the consumer took from the queue and has not read. */
  function Unread(s: State): seq<Data> {
    if s.consumer.Reading? then [Get(s.stored, s.consumer.entry)] else []
  }

  ghost predicate InOrder(s: State) {
    s.sent == s.received + Unread(s) + Contents(s.stored, s.messages) + OnItsWay(s)
  }

  ghost predicate Synchronized(s: State) {
    && (s.locked <==> s.consumer.TestingEmpty? || s.consumer.Unlocking?)
    && (s.producer.TakingUnused? ==> s.unused != [])
    && (s.consumer.Unlocking? || s.consumer.Removing? ==> s.messages != [])
    && (s.consumer.Asleep? && s.messages != [] ==> s.producer.Signalling?)
  }

  ghost predicate Sound(s: State) {
    Conserved(s) && InOrder(s) && Synchronized(s)
  }

  lemma OneFewer(ring: seq<nat>, entry: nat)
    requires ring != []
    ensures Copies(ring, entry) == Copies(ring[1..], entry) + One(entry == ring[0])
  {
    assert ring == [ring[0]] + ring[1..];
  }

  lemma OneMore(ring: seq<nat>, last: nat, entry: nat)
    ensures Copies(ring + [last], entry) == Copies(ring, entry) + One(entry == last)
  {
  }

  lemma ProducerMovesEntries(s: State, entry: nat)
    requires Synchronized(s)
    ensures Places(ProducerNext(s), entry)
            == Places(s, entry) + One(ProducerNext(s).created != s.created && entry == s.created)
  {
    match s.producer
    case TakingUnused(_) => OneFewer(s.unused, entry);
    case Inserting(last) => OneMore(s.messages, last, entry);
    case _ =>
  }

  lemma ConsumerMovesEntries(s: State, entry: nat)
    requires Synchronized(s)
    ensures Places(ConsumerNext(s), entry) == Places(s, entry)
  {
    match s.consumer
    case Removing => OneFewer(s.messages, entry);
    case Recycling(last) => OneMore(s.unused, last, entry);
    case _ =>
  }

  lemma StepConserves(s: State, step: Step)
    requires Conserved(s) && Synchronized(s) && Enabled(s, step)
    ensures Conserved(Next(s, step))
  {
    forall entry: nat ensures Places(Next(s, step), entry) == One(entry < Next(s, step).created) {
      assert Places(s, entry) == One(entry < s.created);
      match step
      case ProducerMoves => ProducerMovesEntries(s, entry);
      case ConsumerMoves => ConsumerMovesEntries(s, entry);
      case _ =>
    }
  }

  /** An entry that a thread holds, or that is new, is not in the queue. */
  lemma WritesMissTheQueue(s: State, entry: nat, data: Data)
    requires Conserved(s) && (ProducerHolds(s, entry) || entry == s.created)
    ensures Contents(s.stored[entry := data], s.messages) == Contents(s.stored, s.messages)
    ensures !ConsumerHolds(s, entry)
  {
    assert Places(s, entry) == One(entry < s.created);
    assert entry !in s.messages;
  }

  lemma ProducerKeepsOrder(s: State)
    requires Conserved(s) && InOrder(s)
    ensures InOrder(ProducerNext(s))
  {
    match s.producer
    case TestingUnused(data) => WritesMissTheQueue(s, s.created, data);
    case Filling(data, entry) => WritesMissTheQueue(s, entry, data);
    case Inserting(entry) =>
      assert Contents(s.stored, s.messages + [entry]) == Contents(s.stored, s.messages) + [Get(s.stored, entry)];
    case _ =>
  }

  lemma Regroup(before: seq<Data>, x: Data, after: seq<Data>)
    ensures before + [] + ([x] + after) == before + [x] + after
    ensures before + [x] + [] + after == before + [x] + after
  {
  }

  lemma ConsumerKeepsOrder(s: State)
    requires Synchronized(s) && InOrder(s)
    ensures InOrder(ConsumerNext(s))
  {
    match s.consumer
    case Removing =>
      var x, rest := Get(s.stored, s.messages[0]), Contents(s.stored, s.messages[1..]);
      assert Contents(s.stored, s.messages) == [x] + rest;
      Regroup(s.received, x, rest);
    case Reading(entry) =>
      Regroup(s.received, Get(s.stored, entry), Contents(s.stored, s.messages));
    case _ =>
  }

  lemma StepSynchronizes(s: State, step: Step)
    requires Synchronized(s) && Enabled(s, step)
    ensures Synchronized(Next(s, step))
  {
  }

  lemma {:induction false} RunIsSound(s: State, steps: seq<Step>)
    requires Sound(s) && Possible(s, steps)
    ensures Sound(Run(s, steps))
    decreases |steps|
  {
    if steps != [] {
      StepConserves(s, steps[0]);
      if steps[0].ProducerMoves? { ProducerKeepsOrder(s); }
      if steps[0].ConsumerMoves? { ConsumerKeepsOrder(s); }
      StepSynchronizes(s, steps[0]);
      RunIsSound(Next(s, steps[0]), steps[1..]);
    }
  }

  // ----- what every run guarantees -----

  /** Messages come out in the order put in, none lost and none twice. */
  lemma FirstInFirstOut(steps: seq<Step>)
    requires Possible(INITIAL, steps)
    ensures var s := Run(INITIAL, steps);
            && s.received <= s.sent
            && s.sent == s.received + Unread(s) + Contents(s.stored, s.messages) + OnItsWay(s)
  {
    RunIsSound(INITIAL, steps);
  }

  /** Every entry created so far is in exactly one of the queue, the unused entries and
      the two threads' hands. */
  lemma EntriesAreConserved(steps: seq<Step>, entry: nat)
    requires Possible(INITIAL, steps)
    ensures Places(Run(INITIAL, steps), entry) == if entry < Run(INITIAL, steps).created then 1 else 0
  {
    RunIsSound(INITIAL, steps);
    assert Conserved(Run(INITIAL, steps));
  }

  predicate InWait(s: State) {
    || s.consumer.WantsLock? || s.consumer.TestingEmpty? || s.consumer.Asleep? || s.consumer.Woken?
    || s.consumer.Unlocking?
  }

  /** How many moves the consumer, or the signal it sleeps for, is from the end of the
      wait. */
  function Distance(s: State): nat {
    match s.consumer
    case Asleep => 4
    case Woken => 3
    case WantsLock => 3
    case TestingEmpty => 2
    case Unlocking => 1
    case _ => 0
  }

  predicate Helps(step: Step) { step.ProducerMoves? || step.ConsumerMoves? }

  ghost predicate WillLeaveWait(s: State) {
    && (s.consumer.Asleep? ==> s.producer.Signalling? && Enabled(s, ProducerMoves)
                               && Next(s, ProducerMoves).consumer.Woken?)
    && (exists step :: Helps(step) && Enabled(s, step) && Distance(Next(s, step)) < Distance(s))
    && (forall step | Enabled(s, step) ::
          Distance(Next(s, step)) <= Distance(s) && Next(s, step).messages != [])
  }

  lemma SynchronizedLeavesWait(s: State)
    requires Synchronized(s) && InWait(s) && s.messages != []
    ensures WillLeaveWait(s)
  {
    var step := if s.consumer.Asleep? then ProducerMoves else ConsumerMoves;
    assert Helps(step) && Enabled(s, step) && Distance(Next(s, step)) < Distance(s);
  }

  /** A consumer that waits although the queue holds something is never stuck: asleep,
      it still has a signal to come, some move brings it closer to the end of its wait,
      and no move of anyone takes it back. */
  lemma NoWakeUpIsLost(steps: seq<Step>)
    requires Possible(INITIAL, steps)
    requires InWait(Run(INITIAL, steps)) && Run(INITIAL, steps).messages != []
    ensures WillLeaveWait(Run(INITIAL, steps))
  {
    RunIsSound(INITIAL, steps);
    SynchronizedLeavesWait(Run(INITIAL, steps));
  }

  /** When the consumer takes a message there is one, and when the producer takes an
      unused entry there is one. */
  lemma RemovesFindAnEntry(steps: seq<Step>)
    requires Possible(INITIAL, steps)
    ensures Run(INITIAL, steps).consumer.Removing? ==> Run(INITIAL, steps).messages != []
    ensures Run(INITIAL, steps).producer.TakingUnused? ==> Run(INITIAL, steps).unused != []
  {
    RunIsSound(INITIAL, steps);
  }
}
