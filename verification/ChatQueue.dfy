/** The linked queue does what the transition system's steps say: its contents are the queue
    of a11 server.c before and after a push and before and after the broadcaster's test. */
module ChatQueue {
  import opened ChatModel
  import MessageQueue

  /** Lines 97 to 102 of server.c, run by handler `h` while it holds the queue mutex. */
  method Push(q: MessageQueue.Queue<Msg>, m: Msg, ghost s: State, ghost h: nat, ghost input: Input)
    requires q.Valid() && q.Contents() == s.fl.queue
    requires h < |s.hs| && s.hs[h].pc.Queueing? && s.hs[h].pc.st == QPush && s.hs[h].pc.msg == m
    modifies q, q.tail
    ensures q.Valid() && q.Contents() == HStep(s, h, input).fl.queue
  {
    q.Enqueue(m);
  }

  /** Lines 47 to 55 of server.c, run by the broadcaster while it holds the queue mutex: it
      takes the head and goes on with it, or finds nothing and waits. */
  method Take(q: MessageQueue.Queue<Msg>, ghost s: State) returns (taken: seq<Msg>)
    requires q.Valid() && q.Contents() == s.fl.queue && s.b == BCheck
    modifies q
    ensures q.Valid() && q.Contents() == BStep(s).fl.queue
    ensures BStep(s).b == if taken == [] then BWait else BUnlock(taken[0])
    ensures |taken| <= 1 && (taken == [] <==> s.fl.queue == [])
  {
    if q.head == null { return []; }
    ghost var queue := q.Contents();
    var m := q.Dequeue();
    assert queue[1..] == q.Contents();
    return [m];
  }
}
