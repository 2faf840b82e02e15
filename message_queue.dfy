/**
  MessageQueue<T> of concurency7/main.cpp: a deque guarded by a mutex and a
  condition variable. send pushes at the front; recieve waits until the
  deque is non-empty and pops from the back. Each call is one atomic step,
  and the wait becomes the precondition that the deque is non-empty.
*/
module MessageQueues {
  import opened Wrappers
  import opened Seqs

  class MessageQueue<T> {
    /** The deque; index 0 is its front. */
    var queue: seq<T>

    constructor ()
      ensures queue == []
    {
      queue := [];
    }

    /** The messages waiting, oldest first. */
    function Pending(): seq<T>
      reads this
    {
      Reverse(queue)
    }

    method Send(message: T)
      modifies this
      ensures queue == [message] + old(queue)
      ensures Pending() == old(Pending()) + [message]
    {
      ReverseAppend([message], queue);
      assert Reverse([message]) == [message];
      queue := [message] + queue;
    }

    /** Source spelling: recieve. Returns the oldest message and removes it, and only it. */
    method Receive() returns (msg: T)
      requires queue != []
      modifies this
      ensures msg == old(queue)[|old(queue)| - 1] && queue == old(queue)[..|old(queue)| - 1]
      ensures msg == old(Pending())[0] && Pending() == old(Pending())[1..]
      ensures multiset(queue) + multiset{msg} == old(multiset(queue))
    {
      msg := queue[|queue| - 1];
      assert queue == queue[..|queue| - 1] + [msg];
      queue := queue[..|queue| - 1];
    }
  }

  /**
    send(x) on an empty queue followed by recieve() hands back x and leaves
    the queue empty.
  */
  method SendThenReceive<T>(x: T) returns (y: T, emptyAfter: bool)
    ensures y == x && emptyAfter
  {
    var q := new MessageQueue<T>();
    q.Send(x);
    y := q.Receive();
    emptyAfter := q.queue == [];
  }

  // ---------------------------------------------------------------------
  // Linearised histories of sends and receives

  datatype Op<T> = SendOp(message: T) | ReceiveOp
  datatype Trace<T> = Trace(delivered: seq<T>, queue: seq<T>)

  /** The messages sent by ops, in order. */
  function Sent<T>(ops: seq<Op<T>>): seq<T> {
    if ops == [] then []
    else (match ops[0] case SendOp(m) => [m] case ReceiveOp => []) + Sent(ops[1..])
  }

  /**
    Runs ops one atomic step at a time from the deque q: what the receives
    return, in order, and the final deque. None when some receive would find
    the deque empty and still be waiting.
  */
  function Run<T>(q: seq<T>, ops: seq<Op<T>>): Option<Trace<T>>
    decreases |ops|
  {
    if ops == [] then Some(Trace([], q))
    else match ops[0]
      case SendOp(m) => Run([m] + q, ops[1..])
      case ReceiveOp =>
        if q == [] then None
        else match Run(q[..|q| - 1], ops[1..])
          case None => None
          case Some(t) => Some(Trace([q[|q| - 1]] + t.delivered, t.queue))
  }

  /** d delivered before whatever the rest of a history delivers. */
  function Prefixed<T>(d: seq<T>, r: Option<Trace<T>>): Option<Trace<T>> {
    match r
    case None => None
    case Some(t) => Some(Trace(d + t.delivered, t.queue))
  }

  /**
    Plays ops on mq one call at a time: send for SendOp, recieve for
    ReceiveOp. It stops with blocked set where a recieve would find the
    queue empty and wait; otherwise it hands back what the receives
    returned, and leaves mq as Run predicts.
  */
  method Replay<T>(mq: MessageQueue<T>, ops: seq<Op<T>>) returns (delivered: seq<T>, blocked: bool)
    modifies mq
    ensures blocked <==> Run(old(mq.queue), ops).None?
    ensures !blocked ==> delivered == Run(old(mq.queue), ops).value.delivered
    ensures !blocked ==> mq.queue == Run(old(mq.queue), ops).value.queue
  {
    delivered, blocked := [], false;
    var i := 0;
    assert ops[0..] == ops;
    PrefixedEmpty(Run(mq.queue, ops));
    while i < |ops|
      invariant 0 <= i <= |ops|
      invariant Run(old(mq.queue), ops) == Prefixed(delivered, Run(mq.queue, ops[i..]))
      decreases |ops| - i
    {
      assert ops[i..] == [ops[i]] + ops[i + 1..];
      match ops[i] {
        case SendOp(m) =>
          RunSend(mq.queue, m, ops[i + 1..]);
          mq.Send(m);
        case ReceiveOp =>
          RunReceive(mq.queue, ops[i + 1..]);
          if mq.queue == [] {
            return delivered, true;
          }
          var msg := mq.Receive();
          PrefixedPrefixed(delivered, [msg], Run(mq.queue, ops[i + 1..]));
          delivered := delivered + [msg];
      }
      i := i + 1;
    }
    assert ops[|ops|..] == [];
    assert delivered + [] == delivered;
  }

  /** A receive on a non-empty queue delivers its back first; on an empty one the history blocks. */
  lemma RunReceive<T>(q: seq<T>, rest: seq<Op<T>>)
    ensures q == [] ==> Run(q, [ReceiveOp] + rest).None?
    ensures q != [] ==> Run(q, [ReceiveOp] + rest) == Prefixed([q[|q| - 1]], Run(q[..|q| - 1], rest))
  {
    assert ([ReceiveOp] + rest)[1..] == rest;
  }

  lemma PrefixedEmpty<T>(r: Option<Trace<T>>)
    ensures Prefixed([], r) == r
  {
    if r.Some? {
      assert [] + r.value.delivered == r.value.delivered;
    }
  }

  lemma PrefixedPrefixed<T>(a: seq<T>, b: seq<T>, r: Option<Trace<T>>)
    ensures Prefixed(a, Prefixed(b, r)) == Prefixed(a + b, r)
  {
    if r.Some? {
      assert a + (b + r.value.delivered) == (a + b) + r.value.delivered;
    }
  }

  /**
    FIFO and exactly once: the messages delivered followed by those still
    waiting are the ones waiting at the start followed by those sent, in
    that order, none lost and none repeated.
  */
  lemma {:induction false} RunIsFifo<T>(q: seq<T>, ops: seq<Op<T>>)
    requires Run(q, ops).Some?
    ensures Run(q, ops).value.delivered + Reverse(Run(q, ops).value.queue) == Reverse(q) + Sent(ops)
    decreases |ops|, 1
  {
    if ops == [] {
      assert Reverse(q) + [] == Reverse(q);
    } else if ops[0].SendOp? {
      SendIsFifo(q, ops);
    } else {
      ReceiveIsFifo(q, ops);
    }
  }

  lemma {:induction false} SendIsFifo<T>(q: seq<T>, ops: seq<Op<T>>)
    requires ops != [] && ops[0].SendOp? && Run(q, ops).Some?
    ensures Run(q, ops).value.delivered + Reverse(Run(q, ops).value.queue) == Reverse(q) + Sent(ops)
    decreases |ops|, 0
  {
    var m, rest := ops[0].message, ops[1..];
    assert Run(q, ops) == Run([m] + q, rest);
    assert Sent(ops) == [m] + Sent(rest);
    RunIsFifo([m] + q, rest);
    ReverseAppend([m], q);
    assert Reverse([m]) == [m];
    var t := Run([m] + q, rest).value;
    calc {
      t.delivered + Reverse(t.queue);
      Reverse([m] + q) + Sent(rest);
      (Reverse(q) + [m]) + Sent(rest);
      Reverse(q) + ([m] + Sent(rest));
    }
  }

  lemma {:induction false} ReceiveIsFifo<T>(q: seq<T>, ops: seq<Op<T>>)
    requires ops != [] && ops[0].ReceiveOp? && Run(q, ops).Some?
    ensures Run(q, ops).value.delivered + Reverse(Run(q, ops).value.queue) == Reverse(q) + Sent(ops)
    decreases |ops|, 0
  {
    var rest := ops[1..];
    ReceiveStep(q, ops);
    var init, last := q[..|q| - 1], q[|q| - 1];
    var t := Run(init, rest).value;
    RunIsFifo(init, rest);
    ConsAppend(last, t.delivered, Reverse(t.queue), Reverse(init) + Sent(rest));
  }

  /** A receive on a non-empty queue delivers its back, then the rest of the history runs on what is left. */
  lemma ReceiveStep<T>(q: seq<T>, ops: seq<Op<T>>)
    requires ops != [] && ops[0].ReceiveOp? && Run(q, ops).Some?
    ensures q != [] && Run(q[..|q| - 1], ops[1..]).Some?
    ensures Run(q, ops).value.delivered == [q[|q| - 1]] + Run(q[..|q| - 1], ops[1..]).value.delivered
    ensures Run(q, ops).value.queue == Run(q[..|q| - 1], ops[1..]).value.queue
    ensures Sent(ops) == Sent(ops[1..])
    ensures Reverse(q) == [q[|q| - 1]] + Reverse(q[..|q| - 1])
  {
  }

  lemma ConsAppend<T>(x: T, a: seq<T>, b: seq<T>, c: seq<T>)
    requires a + b == c
    ensures ([x] + a) + b == [x] + c
  {
  }

  function Sends<T>(xs: seq<T>): (ops: seq<Op<T>>)
    ensures |ops| == |xs|
  {
    if xs == [] then [] else [SendOp(xs[0])] + Sends(xs[1..])
  }

  function Receives<T>(n: nat): (ops: seq<Op<T>>)
    ensures |ops| == n
  {
    if n == 0 then [] else [ReceiveOp] + Receives(n - 1)
  }

  lemma {:induction false} SendsPush<T>(q: seq<T>, xs: seq<T>, rest: seq<Op<T>>)
    ensures Run(q, Sends(xs) + rest) == Run(Reverse(xs) + q, rest)
    decreases |xs|
  {
    if xs == [] {
      assert Sends(xs) + rest == rest;
      assert Reverse(xs) + q == q;
    } else {
      assert Sends(xs) + rest == [SendOp(xs[0])] + (Sends(xs[1..]) + rest);
      RunSend(q, xs[0], Sends(xs[1..]) + rest);
      SendsPush([xs[0]] + q, xs[1..], rest);
      PushFront(xs, q);
    }
  }

  /** A send puts its message at the front, then the rest of the history runs. */
  lemma RunSend<T>(q: seq<T>, m: T, rest: seq<Op<T>>)
    ensures Run(q, [SendOp(m)] + rest) == Run([m] + q, rest)
  {
    assert ([SendOp(m)] + rest)[1..] == rest;
  }

  lemma PushFront<T>(xs: seq<T>, q: seq<T>)
    requires xs != []
    ensures Reverse(xs[1..]) + ([xs[0]] + q) == Reverse(xs) + q
  {
    assert [xs[0]] + xs[1..] == xs;
    ReverseCons(xs[0], xs[1..]);
  }

  lemma {:induction false} ReceivesDrain<T>(q: seq<T>)
    ensures Run(q, Receives(|q|)) == Some(Trace(Reverse(q), []))
    decreases |q|
  {
    if q != [] {
      var init := q[..|q| - 1];
      ReceivesDrain(init);
      assert Receives<T>(|q|)[1..] == Receives(|init|);
    }
  }

  /** N sends followed by N receives deliver the N messages once each, in send order, and leave the queue empty. */
  lemma SendsThenReceives<T>(xs: seq<T>)
    ensures Run([], Sends(xs) + Receives(|xs|)) == Some(Trace(xs, []))
  {
    SendsPush([], xs, Receives(|xs|));
    assert Reverse(xs) + [] == Reverse(xs);
    ReceivesDrain(Reverse(xs));
    ReverseInvolutive(xs);
  }
}
