/** Request and reply over one System V message queue: clients and the server
    separate their traffic by message type only. */
module Channel {

  /** `tag` numbers the request a message belongs to.  It stands for the identity of
      the message; no code reads it. */
  datatype Message = Message(dst: int, src: int, error: int, body: string, tag: nat)

  const SERVER := 1

  /** Receiving by type takes the oldest message of that type. */
  function FirstOf(queue: seq<Message>, dst: int): (i: nat)
    ensures i <= |queue|
    ensures i < |queue| ==> queue[i].dst == dst
    ensures forall j :: 0 <= j < i ==> queue[j].dst != dst
  {
    if queue == [] || queue[0].dst == dst then 0 else 1 + FirstOf(queue[1..], dst)
  }

  predicate Waiting(queue: seq<Message>, dst: int) {
    FirstOf(queue, dst) < |queue|
  }

  function Without(queue: seq<Message>, i: nat): (r: seq<Message>)
    requires i < |queue|
    ensures |r| == |queue| - 1
    ensures forall j :: 0 <= j < |r| ==> r[j] == queue[if j < i then j else j + 1]
  {
    queue[..i] + queue[i + 1..]
  }

  function Request(pid: int, body: string, tag: nat): Message {
    Message(SERVER, pid, 0, body, tag)
  }

  function Reply(pid: int, error: int, body: string, tag: nat): Message {
    Message(pid, SERVER, error, body, tag)
  }

  // ----- the objects that use the queue -----

  class MessageQueue {
    var messages: seq<Message>

    constructor ()
      ensures messages == []
    {
      messages := [];
    }

    method Msgsnd(m: Message)
      modifies this
      ensures messages == old(messages) + [m]
    {
      messages := messages + [m];
    }

    /** Called when there is a message of the type; until then the caller blocks. */
    method Msgrcv(dst: int) returns (m: Message)
      requires Waiting(messages, dst)
      modifies this
      ensures m == old(messages)[FirstOf(old(messages), dst)]
      ensures messages == Without(old(messages), FirstOf(old(messages), dst))
    {
      var i := 0;
      while messages[i].dst != dst
        invariant i <= FirstOf(messages, dst)
        decreases |messages| - i
      {
        i := i + 1;
      }
      m := messages[i];
      messages := messages[..i] + messages[i + 1..];
    }
  }

  class ServiceChannel {
    const q: MessageQueue

    constructor (q: MessageQueue)
      ensures this.q == q
    {
      this.q := q;
    }

    method Send(dst: int, result: int, message: string, tag: nat)
      modifies q
      ensures q.messages == old(q.messages) + [Message(dst, 1, result, message, tag)]
    {
      var m := Message(dst, SERVER, result, message, tag);
      q.Msgsnd(m);
    }

    method Receive() returns (sender: int, request: string, tag: nat)
      requires Waiting(q.messages, SERVER)
      modifies q
      ensures q.messages == Without(old(q.messages), FirstOf(old(q.messages), SERVER))
      ensures var m := old(q.messages)[FirstOf(old(q.messages), SERVER)];
              sender == m.src && request == m.body && tag == m.tag
    {
      var m := q.Msgrcv(SERVER);
      sender, request, tag := m.src, m.body, m.tag;
    }
  }

  class ChannelClient {
    const q: MessageQueue
    const pid: int

    constructor (q: MessageQueue, pid: int)
      ensures this.q == q && this.pid == pid
    {
      this.q, this.pid := q, pid;
    }

    method Send(message: string, tag: nat)
      modifies q
      ensures q.messages == old(q.messages) + [Message(1, pid, 0, message, tag)]
    {
      var m := Message(SERVER, pid, 0, message, tag);
      q.Msgsnd(m);
    }

    method Receive() returns (error: int, reply: string, tag: nat)
      requires Waiting(q.messages, pid)
      modifies q
      ensures q.messages == Without(old(q.messages), FirstOf(old(q.messages), pid))
      ensures var m := old(q.messages)[FirstOf(old(q.messages), pid)];
              error == m.error && reply == m.body && tag == m.tag
    {
      var m := q.Msgrcv(pid);
      error, reply, tag := m.error, m.body, m.tag;
    }
  }

  /** What evaluating one request in the interpreter gives. */
  datatype Evaluation<I> = Evaluation(interp: I, error: int, result: string)

  type Evaluator<!I> = (I, string) -> Evaluation<I>

  class Service<I> {
    const channel: ServiceChannel
    var interp: I
    const evaluate: Evaluator<I>

    constructor (channel: ServiceChannel, interp: I, evaluate: Evaluator<I>)
      ensures this.channel == channel && this.interp == interp && this.evaluate == evaluate
    {
      this.channel, this.interp, this.evaluate := channel, interp, evaluate;
    }

    /** One turn of the service loop: requests of dead clients are ignored. */
    method RunOnce(isAlive: int -> bool) returns (tag: nat, answered: bool)
      requires Waiting(channel.q.messages, SERVER)
      modifies this, channel.q
      ensures var m := old(channel.q.messages)[FirstOf(old(channel.q.messages), SERVER)];
              var rest := Without(old(channel.q.messages), FirstOf(old(channel.q.messages), SERVER));
              var e := evaluate(old(interp), m.body);
              && tag == m.tag && answered == isAlive(m.src)
              && (answered ==> interp == e.interp
                               && channel.q.messages == rest + [Reply(m.src, e.error, e.result, m.tag)])
              && (!answered ==> interp == old(interp) && channel.q.messages == rest)
    {
      var sender, request;
      sender, request, tag := channel.Receive();
      answered := isAlive(sender);
      if !answered { return; }
      var e := evaluate(interp, request);
      interp := e.interp;
      channel.Send(sender, e.error, e.result, tag);
    }
  }
}
