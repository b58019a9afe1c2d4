/** The request-reply protocol as a transition system: any number of clients that only
    ask (send, then block for the reply), and one server, on one shared queue. */
module ChannelProtocol {
  import opened Channel
  import opened Numbers

  datatype Ask = Ask(pid: int, body: string)

  datatype Answer = Answer(error: int, result: string)

  datatype Delivery = Delivery(taker: int, answer: Answer)

  /** Where the server stands in its loop. */
  datatype Server =
    | Listening
    | Checking(request: Message)
    | Evaluating(request: Message)
    | Responding(request: Message, answer: Answer)

  /** `asked` is every request so far in the order sent; a request is known by its place
      in it.  `received` counts the requests the server has taken, `log` lists those it
      evaluated, and `waiting` says which request a blocked client waits for. */
  datatype State<I> = State(
    queue: seq<Message>, server: Server, interp: I, waiting: map<int, nat>, dead: set<int>,
    asked: seq<Ask>, received: nat, dropped: set<nat>, log: seq<nat>, answers: map<nat, Answer>,
    delivered: map<nat, Delivery>)

  datatype Step =
    | Asks(pid: int, body: string)
    | Takes(pid: int)
    | Dies(pid: int)
    | ServerReceives
    | ServerChecks
    | ServerEvaluates
    | ServerResponds

  function Initial<I>(interp: I): State<I> {
    State([], Listening, interp, map[], {}, [], 0, {}, [], map[], map[])
  }

  /** A process asks only while it lives and waits for nothing; its pid is its own and
      is not given out again after it died. */
  predicate Enabled<I>(s: State<I>, step: Step) {
    match step
    case Asks(pid, _) => pid != SERVER && pid !in s.dead && pid !in s.waiting
    case Takes(pid) => pid in s.waiting && Waiting(s.queue, pid)
    case Dies(pid) => pid != SERVER && pid !in s.dead
    case ServerReceives => s.server.Listening? && Waiting(s.queue, SERVER)
    case ServerChecks => s.server.Checking?
    case ServerEvaluates => s.server.Evaluating?
    case ServerResponds => s.server.Responding?
  }

  function Next<I>(evaluate: Evaluator<I>, s: State<I>, step: Step): State<I>
    requires Enabled(s, step)
  {
    match step
    case Asks(pid, body) =>
      s.(queue := s.queue + [Request(pid, body, |s.asked|)],
         asked := s.asked + [Ask(pid, body)],
         waiting := s.waiting[pid := |s.asked|])
    case Takes(pid) =>
      var i := FirstOf(s.queue, pid);
      var m := s.queue[i];
      s.(queue := Without(s.queue, i),
         waiting := s.waiting - {pid},
         delivered := s.delivered[m.tag := Delivery(pid, Answer(m.error, m.body))])
    case Dies(pid) =>
      s.(dead := s.dead + {pid}, waiting := s.waiting - {pid})
    case ServerReceives =>
      var i := FirstOf(s.queue, SERVER);
      s.(queue := Without(s.queue, i), server := Checking(s.queue[i]), received := s.received + 1)
    case ServerChecks =>
      var m := s.server.request;
      if m.src in s.dead
      then s.(server := Listening, dropped := s.dropped + {m.tag})
      else s.(server := Evaluating(m))
    case ServerEvaluates =>
      var m := s.server.request;
      var e := evaluate(s.interp, m.body);
      s.(server := Responding(m, Answer(e.error, e.result)), interp := e.interp,
         log := s.log + [m.tag], answers := s.answers[m.tag := Answer(e.error, e.result)])
    case ServerResponds =>
      var m := s.server.request;
      s.(queue := s.queue + [Reply(m.src, s.server.answer.error, s.server.answer.result, m.tag)],
         server := Listening)
  }

  /** Whether the steps can be taken one after another. */
  predicate Possible<I>(evaluate: Evaluator<I>, s: State<I>, steps: seq<Step>)
    decreases |steps|
  {
    steps == [] || (Enabled(s, steps[0]) && Possible(evaluate, Next(evaluate, s, steps[0]), steps[1..]))
  }

  function Run<I>(evaluate: Evaluator<I>, s: State<I>, steps: seq<Step>): State<I>
    requires Possible(evaluate, s, steps)
    decreases |steps|
  {
    if steps == [] then s else Run(evaluate, Next(evaluate, s, steps[0]), steps[1..])
  }

  // ----- the invariant -----

  function TagsOf(queue: seq<Message>): (r: seq<nat>)
    ensures |r| == |queue| && forall i :: 0 <= i < |queue| ==> r[i] == queue[i].tag
  {
    seq(|queue|, i requires 0 <= i < |queue| => queue[i].tag)
  }

  /** Tags of the messages to the server, oldest first. */
  function Requests(queue: seq<Message>): seq<nat> {
    if queue == [] then []
    else if queue[0].dst == SERVER then [queue[0].tag] + Requests(queue[1..])
    else Requests(queue[1..])
  }

  function CopiesQueued(queue: seq<Message>, t: nat): nat {
    multiset(TagsOf(queue))[t]
  }

  /** In how many places a request or its reply is: in the queue, with the server,
      dropped, or delivered. */
  function Places<I>(s: State<I>, t: nat): nat {
    CopiesQueued(s.queue, t) + One(!s.server.Listening? && s.server.request.tag == t)
    + One(t in s.dropped) + One(t in s.delivered)
  }

  ghost predicate Conserved<I>(s: State<I>) {
    forall t: nat :: Places(s, t) == One(t < |s.asked|)
  }

  predicate IsRequest<I>(s: State<I>, m: Message) {
    m.tag < |s.asked| && m == Request(s.asked[m.tag].pid, s.asked[m.tag].body, m.tag)
  }

  predicate IsReply<I>(s: State<I>, m: Message) {
    && m.tag < |s.asked| && m.tag in s.answers
    && m == Reply(s.asked[m.tag].pid, s.answers[m.tag].error, s.answers[m.tag].result, m.tag)
  }

  predicate Fits<I>(s: State<I>, m: Message) {
    if m.dst == SERVER then IsRequest(s, m) else IsReply(s, m)
  }

  ghost predicate Addressed<I>(s: State<I>) {
    && (forall t :: 0 <= t < |s.asked| ==> s.asked[t].pid != SERVER)
    && (forall i :: 0 <= i < |s.queue| ==> Fits(s, s.queue[i]))
    && (!s.server.Listening? ==> IsRequest(s, s.server.request))
    && (forall t :: t in s.delivered ==>
          t < |s.asked| && t in s.answers && s.delivered[t] == Delivery(s.asked[t].pid, s.answers[t]))
  }

  ghost predicate ClientsBlock<I>(s: State<I>) {
    && (forall pid :: pid in s.waiting ==>
          && pid != SERVER && pid !in s.dead && s.waiting[pid] < |s.asked|
          && s.asked[s.waiting[pid]].pid == pid && s.waiting[pid] !in s.delivered)
    && (forall t :: 0 <= t < |s.asked| && t !in s.delivered && s.asked[t].pid !in s.dead ==>
          s.asked[t].pid in s.waiting && s.waiting[s.asked[t].pid] == t)
    && (forall t :: t in s.dropped ==> t < |s.asked| && s.asked[t].pid in s.dead)
  }

  /** The interpreter after evaluating requests one after another, by themselves. */
  function Sequential<I>(evaluate: Evaluator<I>, interp: I, asked: seq<Ask>, log: seq<nat>): I
    requires forall k :: 0 <= k < |log| ==> log[k] < |asked|
  {
    if log == [] then interp
    else evaluate(Sequential(evaluate, interp, asked, log[..|log| - 1]), asked[log[|log| - 1]].body).interp
  }

  ghost predicate Served<I>(evaluate: Evaluator<I>, interp: I, s: State<I>) {
    && (forall k :: 0 <= k < |s.log| ==> s.log[k] < |s.asked|)
    && s.interp == Sequential(evaluate, interp, s.asked, s.log)
    && (forall k :: 0 <= k < |s.log| ==> AnsweredInTurn(evaluate, interp, s, k))
    && (forall t :: t in s.answers <==> t in s.log)
    && (s.server.Responding? ==>
          s.server.request.tag in s.answers && s.answers[s.server.request.tag] == s.server.answer)
  }

  ghost predicate AnsweredInTurn<I>(evaluate: Evaluator<I>, interp: I, s: State<I>, k: nat)
    requires k < |s.log| && forall j :: 0 <= j < |s.log| ==> s.log[j] < |s.asked|
  {
    var e := evaluate(Sequential(evaluate, interp, s.asked, s.log[..k]), s.asked[s.log[k]].body);
    s.log[k] in s.answers && s.answers[s.log[k]] == Answer(e.error, e.result)
  }

  predicate IsRange(r: seq<nat>, from: nat, to: nat) {
    from <= to && |r| == to - from && forall i :: 0 <= i < |r| ==> r[i] == from + i
  }

  ghost predicate QueuedInOrder<I>(s: State<I>) {
    IsRange(Requests(s.queue), s.received, |s.asked|)
  }

  ghost predicate InOrder<I>(s: State<I>) {
    && (forall j, k :: 0 <= j < k < |s.log| ==> s.log[j] < s.log[k])
    && (forall k :: 0 <= k < |s.log| ==> s.log[k] < s.received)
    && (!s.server.Listening? ==> s.server.request.tag == s.received - 1)
    && (s.server.Checking? || s.server.Evaluating? ==> s.server.request.tag !in s.log)
    && (forall t :: 0 <= t < s.received ==>
          t in s.log || t in s.dropped || (!s.server.Listening? && t == s.received - 1))
  }

  ghost predicate Invariant<I>(evaluate: Evaluator<I>, interp: I, s: State<I>) {
    && Conserved(s) && Addressed(s) && ClientsBlock(s)
    && Served(evaluate, interp, s) && QueuedInOrder(s) && InOrder(s)
  }

  // ----- how the queue functions change under send and receive -----

  lemma QueuedSent(queue: seq<Message>, m: Message, t: nat)
    ensures CopiesQueued(queue + [m], t) == CopiesQueued(queue, t) + One(t == m.tag)
  {
    assert TagsOf(queue + [m]) == TagsOf(queue) + [m.tag];
  }

  lemma QueuedReceived(queue: seq<Message>, i: nat, t: nat)
    requires i < |queue|
    ensures CopiesQueued(queue, t) == CopiesQueued(Without(queue, i), t) + One(t == queue[i].tag)
  {
    var tags := TagsOf(queue);
    assert tags == tags[..i] + [tags[i]] + tags[i + 1..];
    assert TagsOf(Without(queue, i)) == tags[..i] + tags[i + 1..];
  }

  lemma {:induction false} RequestsAppend(front: seq<Message>, back: seq<Message>)
    ensures Requests(front + back) == Requests(front) + Requests(back)
  {
    if front == [] {
      assert front + back == back;
    } else {
      RequestsAppend(front[1..], back);
      assert (front + back)[1..] == front[1..] + back;
    }
  }

  lemma RequestsSent(queue: seq<Message>, m: Message)
    ensures Requests(queue + [m]) == Requests(queue) + if m.dst == SERVER then [m.tag] else []
  {
    RequestsAppend(queue, [m]);
  }

  lemma {:induction false} NoRequests(queue: seq<Message>)
    requires forall i :: 0 <= i < |queue| ==> queue[i].dst != SERVER
    ensures Requests(queue) == []
  {
    if queue != [] { NoRequests(queue[1..]); }
  }

  /** Receiving for the server takes the oldest request; receiving for anyone else
      leaves the requests alone. */
  lemma RequestsReceived(queue: seq<Message>, dst: int)
    requires Waiting(queue, dst)
    ensures dst == SERVER ==>
      Requests(queue) == [queue[FirstOf(queue, dst)].tag] + Requests(Without(queue, FirstOf(queue, dst)))
    ensures dst != SERVER ==> Requests(queue) == Requests(Without(queue, FirstOf(queue, dst)))
  {
    var i := FirstOf(queue, dst);
    var front, back := queue[..i], queue[i + 1..];
    assert queue == (front + [queue[i]]) + back;
    RequestsAppend(front + [queue[i]], back);
    RequestsSent(front, queue[i]);
    RequestsAppend(front, back);
    if dst == SERVER { NoRequests(front); }
  }

  lemma {:induction false} SequentialKeeps<I>(
      evaluate: Evaluator<I>, interp: I, asked: seq<Ask>, more: seq<Ask>, log: seq<nat>)
    requires forall k :: 0 <= k < |log| ==> log[k] < |asked|
    ensures Sequential(evaluate, interp, asked + more, log) == Sequential(evaluate, interp, asked, log)
  {
    if log != [] { SequentialKeeps(evaluate, interp, asked, more, log[..|log| - 1]); }
  }

  // ----- every step keeps the invariant -----

  /** Steps of the server and of the clients only move a request from one place to the
      next; an ask adds the one request it sends. */
  lemma StepMoves<I>(evaluate: Evaluator<I>, s: State<I>, step: Step, t: nat)
    requires Conserved(s) && Enabled(s, step)
    ensures Places(Next(evaluate, s, step), t) == Places(s, t) + One(step.Asks? && t == |s.asked|)
  {
    match step
    case Asks(pid, body) =>
      QueuedSent(s.queue, Request(pid, body, |s.asked|), t);
    case Takes(pid) =>
      QueuedReceived(s.queue, FirstOf(s.queue, pid), t);
      assert Places(s, t) <= 1;
    case ServerReceives =>
      QueuedReceived(s.queue, FirstOf(s.queue, SERVER), t);
    case ServerChecks =>
      assert Places(s, t) <= 1;
    case ServerResponds =>
      var m := s.server.request;
      QueuedSent(s.queue, Reply(m.src, s.server.answer.error, s.server.answer.result, m.tag), t);
    case _ =>
  }

  lemma StepConserves<I>(evaluate: Evaluator<I>, s: State<I>, step: Step)
    requires Conserved(s) && Enabled(s, step)
    ensures Conserved(Next(evaluate, s, step))
  {
    forall t: nat ensures Places(Next(evaluate, s, step), t) == One(t < |Next(evaluate, s, step).asked|) {
      StepMoves(evaluate, s, step, t);
      assert Places(s, t) == One(t < |s.asked|);
    }
  }

  lemma Undelivered<I>(s: State<I>, i: nat)
    requires Conserved(s) && i < |s.queue|
    ensures s.queue[i].tag !in s.delivered
  {
    var t := s.queue[i].tag;
    QueuedReceived(s.queue, i, t);
    assert Places(s, t) <= 1;
  }

  /** What was asked and answered stays so. */
  ghost predicate Extends<I>(s: State<I>, n: State<I>) {
    s.asked <= n.asked && forall t :: t in s.answers ==> t in n.answers && n.answers[t] == s.answers[t]
  }

  lemma StepExtends<I>(evaluate: Evaluator<I>, interp: I, s: State<I>, step: Step)
    requires Served(evaluate, interp, s) && InOrder(s) && Enabled(s, step)
    ensures Extends(s, Next(evaluate, s, step))
  {
  }

  lemma QueueFits<I>(evaluate: Evaluator<I>, s: State<I>, step: Step)
    requires Addressed(s) && Enabled(s, step) && Extends(s, Next(evaluate, s, step))
    requires s.server.Responding? ==>
      s.server.request.tag in s.answers && s.answers[s.server.request.tag] == s.server.answer
    ensures forall i :: 0 <= i < |Next(evaluate, s, step).queue| ==>
      Fits(Next(evaluate, s, step), Next(evaluate, s, step).queue[i])
  {
    var n := Next(evaluate, s, step);
    forall i | 0 <= i < |n.queue| ensures Fits(n, n.queue[i]) {
      if n.queue[i] in s.queue { assert Fits(s, n.queue[i]); }
    }
  }

  lemma DeliveredFits<I>(evaluate: Evaluator<I>, s: State<I>, step: Step)
    requires Addressed(s) && ClientsBlock(s) && Enabled(s, step) && Extends(s, Next(evaluate, s, step))
    ensures var n := Next(evaluate, s, step);
            forall t :: t in n.delivered ==>
              t < |n.asked| && t in n.answers && n.delivered[t] == Delivery(n.asked[t].pid, n.answers[t])
  {
    if step.Takes? { assert Fits(s, s.queue[FirstOf(s.queue, step.pid)]); }
  }

  lemma StepAddresses<I>(evaluate: Evaluator<I>, interp: I, s: State<I>, step: Step)
    requires Addressed(s) && ClientsBlock(s) && Served(evaluate, interp, s) && InOrder(s) && Enabled(s, step)
    ensures Addressed(Next(evaluate, s, step))
  {
    StepExtends(evaluate, interp, s, step);
    QueueFits(evaluate, s, step);
    DeliveredFits(evaluate, s, step);
    if step.ServerReceives? { assert Fits(s, s.queue[FirstOf(s.queue, SERVER)]); }
  }

  lemma StepBlocks<I>(evaluate: Evaluator<I>, s: State<I>, step: Step)
    requires Conserved(s) && Addressed(s) && ClientsBlock(s) && Enabled(s, step)
    ensures ClientsBlock(Next(evaluate, s, step))
  {
    if step.Takes? {
      var i := FirstOf(s.queue, step.pid);
      Undelivered(s, i);
      assert Fits(s, s.queue[i]);
    }
  }

  lemma EarlierTurns<I>(evaluate: Evaluator<I>, interp: I, s: State<I>, n: State<I>)
    requires Served(evaluate, interp, s) && Extends(s, n) && s.log <= n.log
    requires forall k :: 0 <= k < |n.log| ==> n.log[k] < |n.asked|
    ensures forall k :: 0 <= k < |s.log| ==> AnsweredInTurn(evaluate, interp, n, k)
    ensures Sequential(evaluate, interp, n.asked, s.log) == s.interp
  {
    var more := n.asked[|s.asked|..];
    assert n.asked == s.asked + more;
    SequentialKeeps(evaluate, interp, s.asked, more, s.log);
    forall k | 0 <= k < |s.log| ensures AnsweredInTurn(evaluate, interp, n, k) {
      assert AnsweredInTurn(evaluate, interp, s, k);
      assert n.log[..k] == s.log[..k];
      SequentialKeeps(evaluate, interp, s.asked, more, s.log[..k]);
    }
  }

  lemma EvaluateServes<I>(evaluate: Evaluator<I>, interp: I, s: State<I>)
    requires Addressed(s) && Served(evaluate, interp, s) && InOrder(s) && s.server.Evaluating?
    ensures Served(evaluate, interp, Next(evaluate, s, ServerEvaluates))
  {
    var n := Next(evaluate, s, ServerEvaluates);
    StepExtends(evaluate, interp, s, ServerEvaluates);
    EarlierTurns(evaluate, interp, s, n);
    assert n.log[..|s.log|] == s.log;
  }

  lemma StepServes<I>(evaluate: Evaluator<I>, interp: I, s: State<I>, step: Step)
    requires Addressed(s) && Served(evaluate, interp, s) && InOrder(s) && Enabled(s, step)
    ensures Served(evaluate, interp, Next(evaluate, s, step))
  {
    if step.ServerEvaluates? {
      EvaluateServes(evaluate, interp, s);
    } else {
      StepExtends(evaluate, interp, s, step);
      EarlierTurns(evaluate, interp, s, Next(evaluate, s, step));
    }
  }

  lemma StepQueues<I>(evaluate: Evaluator<I>, s: State<I>, step: Step)
    requires Addressed(s) && ClientsBlock(s) && QueuedInOrder(s) && Enabled(s, step)
    ensures QueuedInOrder(Next(evaluate, s, step))
    ensures step.ServerReceives? ==> s.queue[FirstOf(s.queue, SERVER)].tag == s.received
  {
    match step
    case Asks(pid, body) =>
      RequestsSent(s.queue, Request(pid, body, |s.asked|));
    case Takes(pid) =>
      RequestsReceived(s.queue, pid);
    case ServerReceives =>
      RequestsReceived(s.queue, SERVER);
      var rest := Requests(Without(s.queue, FirstOf(s.queue, SERVER)));
      assert Requests(s.queue)[0] == s.received;
      assert forall i :: 0 <= i < |rest| ==> rest[i] == Requests(s.queue)[i + 1];
    case ServerResponds =>
      var m := s.server.request;
      RequestsSent(s.queue, Reply(m.src, s.server.answer.error, s.server.answer.result, m.tag));
    case _ =>
  }

  lemma StepOrders<I>(evaluate: Evaluator<I>, s: State<I>, step: Step)
    requires InOrder(s) && Enabled(s, step)
    requires step.ServerReceives? ==> s.queue[FirstOf(s.queue, SERVER)].tag == s.received
    requires s.server.Responding? ==> s.server.request.tag in s.log
    ensures InOrder(Next(evaluate, s, step))
  {
  }

  lemma StepKeepsInvariant<I>(evaluate: Evaluator<I>, interp: I, s: State<I>, step: Step)
    requires Invariant(evaluate, interp, s) && Enabled(s, step)
    ensures Invariant(evaluate, interp, Next(evaluate, s, step))
  {
    StepConserves(evaluate, s, step);
    StepAddresses(evaluate, interp, s, step);
    StepBlocks(evaluate, s, step);
    StepServes(evaluate, interp, s, step);
    StepQueues(evaluate, s, step);
    StepOrders(evaluate, s, step);
  }

  lemma {:induction false} RunKeepsInvariant<I>(evaluate: Evaluator<I>, interp: I, s: State<I>, steps: seq<Step>)
    requires Invariant(evaluate, interp, s) && Possible(evaluate, s, steps)
    ensures Invariant(evaluate, interp, Run(evaluate, s, steps))
    decreases |steps|
  {
    if steps != [] {
      StepKeepsInvariant(evaluate, interp, s, steps[0]);
      RunKeepsInvariant(evaluate, interp, Next(evaluate, s, steps[0]), steps[1..]);
    }
  }

  // ----- what every run guarantees -----

  /** The state after a run from the start. */
  function After<I>(evaluate: Evaluator<I>, interp: I, steps: seq<Step>): State<I>
    requires Possible(evaluate, Initial(interp), steps)
  {
    Run(evaluate, Initial(interp), steps)
  }

  lemma RunIsSound<I>(evaluate: Evaluator<I>, interp: I, steps: seq<Step>)
    requires Possible(evaluate, Initial(interp), steps)
    ensures Invariant(evaluate, interp, After(evaluate, interp, steps))
  {
    RunKeepsInvariant(evaluate, interp, Initial(interp), steps);
  }

  datatype Phase = Queued | WithServer | Dropped | ReplyQueued | Delivered

  ghost predicate InPhase<I>(s: State<I>, t: nat, phase: Phase) {
    match phase
    case Queued => exists m :: m in s.queue && m.tag == t && m.dst == SERVER
    case WithServer => !s.server.Listening? && s.server.request.tag == t
    case Dropped => t in s.dropped
    case ReplyQueued => exists m :: m in s.queue && m.tag == t && m.dst != SERVER
    case Delivered => t in s.delivered
  }

  lemma CopyInQueue(queue: seq<Message>, t: nat)
    ensures CopiesQueued(queue, t) > 0 <==> exists m :: m in queue && m.tag == t
    ensures CopiesQueued(queue, t) == 1 ==>
      forall i, j :: 0 <= i < j < |queue| ==> queue[i].tag != t || queue[j].tag != t
  {
    var tags := TagsOf(queue);
    if i :| 0 <= i < |tags| && tags[i] == t { assert queue[i] in queue; }
    forall i, j | 0 <= i < j < |queue| && queue[i].tag == t && queue[j].tag == t ensures CopiesQueued(queue, t) > 1 {
      assert tags == tags[..i] + [t] + tags[i + 1..j] + [t] + tags[j + 1..];
    }
  }

  lemma OnePlaceOnePhase<I>(s: State<I>, t: nat)
    requires Places(s, t) == 1
    ensures exists phase :: InPhase(s, t, phase)
    ensures forall p, q | InPhase(s, t, p) && InPhase(s, t, q) :: p == q
  {
    CopyInQueue(s.queue, t);
    if m :| m in s.queue && m.tag == t {
      assert InPhase(s, t, if m.dst == SERVER then Queued else ReplyQueued);
    } else {
      assert InPhase(s, t, if t in s.delivered then Delivered else if t in s.dropped then Dropped else WithServer);
    }
  }

  /** After every run each request sent so far is in exactly one phase: neither it nor
      its reply is lost or there twice. */
  lemma ExactlyOnePhase<I>(evaluate: Evaluator<I>, interp: I, steps: seq<Step>, t: nat)
    requires Possible(evaluate, Initial(interp), steps)
    requires t < |After(evaluate, interp, steps).asked|
    ensures Places(After(evaluate, interp, steps), t) == 1
    ensures exists phase :: InPhase(After(evaluate, interp, steps), t, phase)
    ensures forall p, q | InPhase(After(evaluate, interp, steps), t, p) && InPhase(After(evaluate, interp, steps), t, q)
              :: p == q
  {
    RunIsSound(evaluate, interp, steps);
    OnePlaceOnePhase(After(evaluate, interp, steps), t);
  }

  /** Every reply was taken by the client that sent the request, and is what the server
      answered to it; a request is dropped only when its client is dead. */
  lemma RepliesReachTheirClients<I>(evaluate: Evaluator<I>, interp: I, steps: seq<Step>, t: nat)
    requires Possible(evaluate, Initial(interp), steps)
    ensures var s := After(evaluate, interp, steps);
            && (t in s.delivered ==> t < |s.asked| && t in s.answers
                                     && s.delivered[t] == Delivery(s.asked[t].pid, s.answers[t]))
            && (t in s.dropped ==> t < |s.asked| && s.asked[t].pid in s.dead)
  {
    RunIsSound(evaluate, interp, steps);
  }

  /** When a blocked client can take a message, it is the reply to the request it is
      blocked on. */
  lemma WaitingClientGetsItsReply<I>(evaluate: Evaluator<I>, interp: I, steps: seq<Step>, pid: int)
    requires Possible(evaluate, Initial(interp), steps)
    requires Enabled(After(evaluate, interp, steps), Takes(pid))
    ensures var s := After(evaluate, interp, steps);
            var m := s.queue[FirstOf(s.queue, pid)];
            && m.tag == s.waiting[pid] && m.tag < |s.asked| && s.asked[m.tag].pid == pid
            && m.tag in s.answers && s.answers[m.tag] == Answer(m.error, m.body)
  {
    RunIsSound(evaluate, interp, steps);
    var s := After(evaluate, interp, steps);
    var i := FirstOf(s.queue, pid);
    assert Fits(s, s.queue[i]);
    Undelivered(s, i);
  }

  /** The answers are those of one interpreter that evaluates the requests by themselves
      one after another, in the order they were sent. */
  lemma AnswersAreSequential<I>(evaluate: Evaluator<I>, interp: I, steps: seq<Step>, k: nat)
    requires Possible(evaluate, Initial(interp), steps)
    requires k < |After(evaluate, interp, steps).log|
    ensures var s := After(evaluate, interp, steps);
            && (forall j :: 0 <= j < |s.log| ==> s.log[j] < |s.asked|)
            && (forall j :: 0 <= j < k ==> s.log[j] < s.log[k])
            && AnsweredInTurn(evaluate, interp, s, k)
  {
    RunIsSound(evaluate, interp, steps);
  }

  predicate IsServerStep(step: Step) {
    step.ServerReceives? || step.ServerChecks? || step.ServerEvaluates? || step.ServerResponds?
  }

  /** Server steps until the request at hand is done with. */
  function Work(server: Server): nat {
    match server
    case Listening => 0
    case Responding(_, _) => 1
    case Evaluating(_) => 2
    case Checking(_) => 3
  }

  /** At most this many server steps until the reply to request `t` is in the queue. */
  function Distance<I>(s: State<I>, t: nat): nat {
    if t >= s.received then Work(s.server) + 4 * (t - s.received) + 4
    else if !s.server.Listening? && s.server.request.tag == t then Work(s.server)
    else 0
  }

  ghost predicate DrawsNearer<I>(evaluate: Evaluator<I>, s: State<I>, pid: int)
    requires pid in s.waiting
  {
    var t := s.waiting[pid];
    && (Distance(s, t) == 0 ==> Enabled(s, Takes(pid)))
    && (Distance(s, t) > 0 ==> exists step :: IsServerStep(step) && Enabled(s, step))
    && forall step | Enabled(s, step) ::
         var after := Distance(Next(evaluate, s, step), t);
         if IsServerStep(step) && Distance(s, t) > 0 then after < Distance(s, t) else after == Distance(s, t)
  }

  lemma ReplyIsThere<I>(evaluate: Evaluator<I>, interp: I, s: State<I>, pid: int)
    requires Invariant(evaluate, interp, s) && pid in s.waiting && Distance(s, s.waiting[pid]) == 0
    ensures Enabled(s, Takes(pid))
  {
    var t := s.waiting[pid];
    assert Places(s, t) == 1;
    CopyInQueue(s.queue, t);
    var m :| m in s.queue && m.tag == t;
    assert Fits(s, m);
    if m.dst == SERVER { QueuedNotReceived(s, m); }
    var i :| 0 <= i < |s.queue| && s.queue[i] == m;
    assert i >= FirstOf(s.queue, pid);
  }

  lemma {:induction false} RequestIsListed(queue: seq<Message>, m: Message)
    requires m in queue && m.dst == SERVER
    ensures m.tag in Requests(queue)
  {
    if queue[0] != m { RequestIsListed(queue[1..], m); }
  }

  lemma QueuedNotReceived<I>(s: State<I>, m: Message)
    requires QueuedInOrder(s) && m in s.queue && m.dst == SERVER
    ensures m.tag >= s.received
  {
    RequestIsListed(s.queue, m);
  }

  lemma {:induction false} ListedIsRequest(queue: seq<Message>, t: nat)
    requires t in Requests(queue)
    ensures Waiting(queue, SERVER)
  {
    if queue[0].dst != SERVER { ListedIsRequest(queue[1..], t); }
  }

  lemma ServerHasWork<I>(s: State<I>, t: nat)
    requires QueuedInOrder(s) && t < |s.asked| && Distance(s, t) > 0
    ensures exists step :: IsServerStep(step) && Enabled(s, step)
  {
    if s.server.Listening? {
      assert Requests(s.queue)[t - s.received] == t;
      ListedIsRequest(s.queue, t);
    }
    var step := match s.server
      case Listening => ServerReceives
      case Checking(_) => ServerChecks
      case Evaluating(_) => ServerEvaluates
      case Responding(_, _) => ServerResponds;
    assert IsServerStep(step) && Enabled(s, step);
  }

  lemma StepDistance<I>(evaluate: Evaluator<I>, s: State<I>, t: nat, step: Step)
    requires Enabled(s, step)
    requires !s.server.Listening? ==> s.server.request.tag == s.received - 1
    requires step.ServerReceives? ==> s.queue[FirstOf(s.queue, SERVER)].tag == s.received
    ensures var after := Distance(Next(evaluate, s, step), t);
            if IsServerStep(step) && Distance(s, t) > 0 then after < Distance(s, t) else after == Distance(s, t)
  {
  }

  lemma ServerRequests<I>(evaluate: Evaluator<I>, interp: I, s: State<I>, step: Step)
    requires Invariant(evaluate, interp, s) && Enabled(s, step)
    ensures !s.server.Listening? ==> s.server.request.tag == s.received - 1
    ensures step.ServerReceives? ==> s.queue[FirstOf(s.queue, SERVER)].tag == s.received
  {
    StepQueues(evaluate, s, step);
  }

  /** A blocked client is never left waiting: until its reply is in the queue the server
      has a step to take, each of its steps brings the reply nearer, and no step of
      anyone else puts it off. */
  lemma NoClientIsStuck<I>(evaluate: Evaluator<I>, interp: I, steps: seq<Step>, pid: int)
    requires Possible(evaluate, Initial(interp), steps)
    requires pid in After(evaluate, interp, steps).waiting
    ensures DrawsNearer(evaluate, After(evaluate, interp, steps), pid)
  {
    hide Next, Conserved, Addressed, Served, InOrder;
    RunIsSound(evaluate, interp, steps);
    var s := After(evaluate, interp, steps);
    var t := s.waiting[pid];
    if Distance(s, t) == 0 { ReplyIsThere(evaluate, interp, s, pid); } else { ServerHasWork(s, t); }
    forall step | Enabled(s, step)
      ensures var after := Distance(Next(evaluate, s, step), t);
        if IsServerStep(step) && Distance(s, t) > 0 then after < Distance(s, t) else after == Distance(s, t)
    {
      ServerRequests(evaluate, interp, s, step);
      StepDistance(evaluate, s, t, step);
    }
  }

  /** One uninterrupted turn of the service loop does what the server's four steps do. */
  lemma TurnIsFourSteps<I>(evaluate: Evaluator<I>, s: State<I>)
    requires Enabled(s, ServerReceives)
    ensures var m := s.queue[FirstOf(s.queue, SERVER)];
            var rest := Without(s.queue, FirstOf(s.queue, SERVER));
            var e := evaluate(s.interp, m.body);
            if m.src in s.dead then
              var turn := [ServerReceives, ServerChecks];
              && Possible(evaluate, s, turn)
              && Run(evaluate, s, turn).queue == rest && Run(evaluate, s, turn).interp == s.interp
            else
              var turn := [ServerReceives, ServerChecks, ServerEvaluates, ServerResponds];
              && Possible(evaluate, s, turn)
              && Run(evaluate, s, turn).queue == rest + [Reply(m.src, e.error, e.result, m.tag)]
              && Run(evaluate, s, turn).interp == e.interp
  {
    var received := Next(evaluate, s, ServerReceives);
    var checked := Next(evaluate, received, ServerChecks);
    assert [ServerReceives, ServerChecks][1..] == [ServerChecks];
    var turn := [ServerReceives, ServerChecks, ServerEvaluates, ServerResponds];
    assert turn[1..] == [ServerChecks, ServerEvaluates, ServerResponds];
    assert turn[1..][1..] == [ServerEvaluates, ServerResponds];
    assert turn[1..][1..][1..] == [ServerResponds];
  }
}
