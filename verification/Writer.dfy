/**
  The batching writer of a connection: one goroutine takes messages off the queue and hands them to
  the transport in frames, others enqueue at any moment, and close ends it all.

  A batch and close run under the writer's lock, enqueue does not. So a batch is one step in which
  other goroutines may enqueue before every access to the queue: `arrivals(k)` are the messages that
  arrive before the k-th of them.
 */
module Writer {
  import opened Queue

  /** A frame handed to the transport: a batch under a limit, or what close flushes. */
  datatype Frame = Batch(items: seq<Item>, limit: int) | Flush(items: seq<Item>)

  function Flatten(frames: seq<Frame>): seq<Item> {
    if frames == [] then [] else Flatten(frames[..|frames| - 1]) + frames[|frames| - 1].items
  }

  /** The writer as seen from outside: the messages enqueue has accepted, in order; the queue; the
      frames handed over; what a close without flush threw away. */
  datatype State = State(accepted: seq<Item>, queue: seq<Item>, frames: seq<Frame>, dropped: seq<Item>, closed: bool)

  const Initial := State([], [], [], [], false)

  type Arrivals = nat -> seq<Item>

  datatype Event =
    | Enqueue(item: Item)
    | SendBatch(limit: int, arrivals: Arrivals)
    | Close(flush: bool)

  function Arrive(s: State, items: seq<Item>): State {
    if s.closed then s else s.(accepted := s.accepted + items, queue := s.queue + items)
  }

  predicate Batches(limit: int) {
    limit == -1 || limit > 1
  }

  /** Collects further messages into a frame, `count` of them unless the frame is full before. */
  function Collect(s: State, frame: seq<Item>, count: nat, limit: int, arrivals: Arrivals, k: nat): (State, seq<Item>)
    decreases count
  {
    if count == 0 || (limit > -1 && |frame| >= limit) then (s, frame)
    else
      var s' := Arrive(s, arrivals(k));
      if s'.queue == [] then (s', frame)
      else Collect(s'.(queue := s'.queue[1..]), frame + [s'.queue[0]], count - 1, limit, arrivals, k + 1)
  }

  /** One batch. The number of messages to collect is read after the first one has been taken. */
  function DoBatch(s: State, limit: int, arrivals: Arrivals): State {
    if s.queue == [] then s
    else
      var s1 := Arrive(s.(queue := s.queue[1..]), arrivals(0));
      var (s2, items) := if Batches(limit) then Collect(s1, [s.queue[0]], |s1.queue|, limit, arrivals, 1) else (s1, [s.queue[0]]);
      s2.(frames := s2.frames + [Batch(items, limit)])
  }

  function DoClose(s: State, flush: bool): State {
    if s.closed then s
    else if !flush then s.(queue := [], dropped := s.queue, closed := true)
    else s.(queue := [], closed := true, frames := if s.queue == [] then s.frames else s.frames + [Flush(s.queue)])
  }

  function Step(s: State, e: Event): State {
    match e
    case Enqueue(item) => Arrive(s, [item])
    case SendBatch(limit, arrivals) => DoBatch(s, limit, arrivals)
    case Close(flush) => DoClose(s, flush)
  }

  function Run(s: State, events: seq<Event>): State {
    if events == [] then s else Step(Run(s, events[..|events| - 1]), events[|events| - 1])
  }

  // ----- Every run delivers a prefix of what was accepted -----

  /** Frames, queue and dropped messages together are the accepted messages in their order. */
  ghost predicate Conserved(s: State) {
    && Flatten(s.frames) + s.queue + s.dropped == s.accepted
    && (s.closed ==> s.queue == [])
    && (!s.closed ==> s.dropped == [])
  }

  /** A frame respects its limit: -1 is no limit, limits below 2 mean one message at a time. */
  predicate WithinLimit(f: Frame) {
    f.items != [] && (f.Batch? && f.limit != -1 ==> |f.items| <= if f.limit > 1 then f.limit else 1)
  }

  ghost predicate AllWithinLimit(frames: seq<Frame>) {
    forall i :: 0 <= i < |frames| ==> WithinLimit(frames[i])
  }

  ghost predicate Good(s: State) {
    Conserved(s) && AllWithinLimit(s.frames)
  }

  lemma FlattenAdd(frames: seq<Frame>, f: Frame)
    ensures Flatten(frames + [f]) == Flatten(frames) + f.items
  {
  }

  /** Collecting moves messages from the front of the queue to the end of the frame; as long as the
      queue holds the messages that were counted, it is never found empty. `more` has arrived. */
  lemma {:induction false} CollectMoves(s: State, frame: seq<Item>, count: nat, limit: int, arrivals: Arrivals, k: nat)
    returns (more: seq<Item>)
    requires !s.closed && count <= |s.queue|
    ensures var (s', frame') := Collect(s, frame, count, limit, arrivals, k);
            && s' == s.(accepted := s.accepted + more, queue := s'.queue)
            && frame' + s'.queue == frame + s.queue + more
            && frame <= frame' && (limit > -1 && |frame| <= limit ==> |frame'| <= limit)
    decreases count
  {
    if count == 0 || (limit > -1 && |frame| >= limit) {
      more := [];
    } else {
      var a := arrivals(k);
      var s1 := Arrive(s, a);
      var s2, frame2 := s1.(queue := s1.queue[1..]), frame + [s1.queue[0]];
      var rest := CollectMoves(s2, frame2, count - 1, limit, arrivals, k + 1);
      assert frame2 + s2.queue + rest == frame + s.queue + (a + rest);
      assert s.accepted + a + rest == s.accepted + (a + rest);
      more := a + rest;
    }
  }

  /** A batch takes a non-empty frame within the limit off the front of the queue. */
  lemma BatchMoves(s: State, limit: int, arrivals: Arrivals) returns (more: seq<Item>, f: Frame)
    requires !s.closed && s.queue != []
    ensures f.Batch? && f.limit == limit && WithinLimit(f)
    ensures var s' := DoBatch(s, limit, arrivals);
            && s' == s.(accepted := s.accepted + more, queue := s'.queue, frames := s.frames + [f])
            && f.items + s'.queue == s.queue + more
  {
    var first, a := [s.queue[0]], arrivals(0);
    var s1 := Arrive(s.(queue := s.queue[1..]), a);
    assert first + s1.queue == s.queue + a;
    if Batches(limit) {
      var rest := CollectMoves(s1, first, |s1.queue|, limit, arrivals, 1);
      more := a + rest;
      f := Batch(Collect(s1, first, |s1.queue|, limit, arrivals, 1).1, limit);
      assert s.accepted + a + rest == s.accepted + more;
      assert s.queue + a + rest == s.queue + more;
    } else {
      more, f := a, Batch(first, limit);
    }
  }

  lemma BatchKeeps(s: State, limit: int, arrivals: Arrivals)
    requires Good(s)
    ensures Good(DoBatch(s, limit, arrivals))
  {
    if s.queue != [] {
      var more, f := BatchMoves(s, limit, arrivals);
      hide DoBatch;
      FlattenAdd(s.frames, f);
      var s' := DoBatch(s, limit, arrivals);
      calc {
        Flatten(s'.frames) + s'.queue;
        Flatten(s.frames) + (f.items + s'.queue);
        Flatten(s.frames) + s.queue + more;
      }
      assert s'.dropped == [];
    }
  }

  lemma CollectNothing(s: State, frame: seq<Item>, limit: int, arrivals: Arrivals)
    ensures Collect(s, frame, 0, limit, arrivals, 1) == (s, frame)
  {
  }

  lemma CloseKeeps(s: State, flush: bool)
    requires Good(s)
    ensures Good(DoClose(s, flush))
  {
    if !s.closed {
      var sent := Flatten(s.frames);
      assert sent + s.queue + [] == s.accepted == sent + [] + s.queue;
      if flush && s.queue != [] {
        FlattenAdd(s.frames, Flush(s.queue));
        assert sent + s.queue + [] + [] == s.accepted;
        hide Flatten;
        assert AllWithinLimit(s.frames + [Flush(s.queue)]);
      }
    }
  }

  lemma EnqueueKeeps(s: State, item: Item)
    requires Good(s)
    ensures Good(Arrive(s, [item]))
  {
  }

  lemma StepKeeps(s: State, e: Event)
    requires Good(s)
    ensures Good(Step(s, e))
  {
    hide Good;
    match e
    case Enqueue(item) => EnqueueKeeps(s, item);
    case SendBatch(limit, arrivals) => BatchKeeps(s, limit, arrivals);
    case Close(flush) => CloseKeeps(s, flush);
  }

  lemma {:induction false} RunKeeps(events: seq<Event>)
    ensures Good(Run(Initial, events))
    decreases |events|
  {
    hide Step;
    if events != [] {
      RunKeeps(events[..|events| - 1]);
      StepKeeps(Run(Initial, events[..|events| - 1]), events[|events| - 1]);
    }
  }

  /** In every run the frames, one after the other, are a prefix of the accepted messages: none is
      lost from the middle, sent twice or out of order. Frames respect their limit. While the writer
      is open the rest is in the queue; if it was closed with a flush, there is no rest. */
  lemma DeliversPrefix(events: seq<Event>)
    ensures var s := Run(Initial, events);
            && Flatten(s.frames) <= s.accepted
            && AllWithinLimit(s.frames)
            && (!s.closed ==> Flatten(s.frames) + s.queue == s.accepted)
            && (s.closed ==> Flatten(s.frames) + s.dropped == s.accepted)
  {
    RunKeeps(events);
    var s := Run(Initial, events);
    assert s.accepted[..|Flatten(s.frames)|] == Flatten(s.frames);
  }

  /** Nothing changes after close. */
  lemma {:induction false} ClosedForGood(s: State, events: seq<Event>)
    requires s.closed && s.queue == []
    ensures Run(s, events) == s
    decreases |events|
  {
    if events != [] {
      ClosedForGood(s, events[..|events| - 1]);
    }
  }

  /** A close with flush delivers everything accepted before it, and the frames stay that way. */
  lemma FlushDeliversAll(before: seq<Event>, after: seq<Event>)
    requires !Run(Initial, before).closed
    ensures var s := Run(DoClose(Run(Initial, before), true), after);
            Flatten(s.frames) == s.accepted == Run(Initial, before).accepted
  {
    RunKeeps(before);
    var s := Run(Initial, before);
    FlattenAdd(s.frames, Flush(s.queue));
    ClosedForGood(DoClose(s, true), after);
  }

  // ----- The writer -----

  datatype Disconnect = None | ConnectionClosed | Slow

  class Writer {
    const messages: Queue
    const maxQueueSize: int
    var closed: bool
    ghost var accepted: seq<Item>
    ghost var dropped: seq<Item>
    var frames: seq<Frame>

    ghost predicate Valid()
      reads this, messages, messages.nodes
    {
      messages.Valid() && closed == messages.closed
    }

    ghost function Abstract(): State
      requires Valid()
      reads this, messages, messages.nodes
    {
      State(accepted, messages.Contents(), frames, dropped, closed)
    }

    constructor (queueInitialCap: nat, maxQueueSize: int)
      ensures Valid() && Abstract() == Initial && fresh(messages) && fresh(messages.nodes)
    {
      var q := new Queue(if queueInitialCap == 0 then 2 else queueInitialCap);
      messages := q;
      this.maxQueueSize := maxQueueSize;
      closed, accepted, dropped, frames := false, [], [], [];
    }

    /** Accepts a message unless the writer is closed; a message that overfills the queue is accepted
        and reported. */
    method Enqueue(item: Item) returns (d: Disconnect)
      requires Valid()
      modifies this`accepted, messages, messages.nodes
      ensures Valid() && (messages.nodes == old(messages.nodes) || fresh(messages.nodes))
      ensures Abstract() == Arrive(old(Abstract()), [item])
      ensures d == ConnectionClosed <==> closed
      ensures d == Slow <==> !closed && maxQueueSize > 0 && TotalSize(Abstract().queue) > maxQueueSize
    {
      hide Window, Wrap, TotalSize;
      var ok := messages.Add(item);
      if !ok {
        return ConnectionClosed;
      }
      accepted := accepted + [item];
      var size := messages.Size();
      if maxQueueSize > 0 && size > maxQueueSize {
        return Slow;
      }
      return None;
    }

    /** The messages that other goroutines enqueue at one moment of a batch. */
    method Interfere(items: seq<Item>)
      requires Valid()
      modifies this`accepted, messages, messages.nodes
      ensures Valid() && (messages.nodes == old(messages.nodes) || fresh(messages.nodes))
      ensures Abstract() == Arrive(old(Abstract()), items)
    {
      hide Window, Wrap, TotalSize;
      ghost var s := Abstract();
      assert s.accepted + [] == s.accepted && s.queue + [] == s.queue;
      for i := 0 to |items|
        invariant Valid() && (messages.nodes == old(messages.nodes) || fresh(messages.nodes))
        invariant Abstract() == Arrive(s, items[..i])
      {
        assert items[..i + 1] == items[..i] + [items[i]];
        var _ := Enqueue(items[i]);
      }
      assert items[..|items|] == items;
    }

    /** The part of a batch that collects messages under the lock. The branch of the source for a
        queue that has run empty cannot be reached. */
    method CollectFrame(msg: Item, messageCount0: nat, limit: int, arrivals: Arrivals) returns (items: seq<Item>)
      requires Valid() && !closed && messageCount0 <= |Abstract().queue|
      modifies this`accepted, messages, messages.nodes
      ensures Valid() && (messages.nodes == old(messages.nodes) || fresh(messages.nodes))
      ensures (Abstract(), items) == Collect(old(Abstract()), [msg], messageCount0, limit, arrivals, 1)
    {
      hide Window, Wrap, TotalSize, Queue.Valid, Queue.Contents;
      items := [msg];
      var messageCount: nat := messageCount0;
      ghost var goal := Collect(Abstract(), items, messageCount, limit, arrivals, 1);
      var k: nat := 1;
      while messageCount > 0
        invariant Valid() && !closed && (messages.nodes == old(messages.nodes) || fresh(messages.nodes))
        invariant messageCount <= |Abstract().queue|
        invariant Collect(Abstract(), items, messageCount, limit, arrivals, k) == goal
      {
        if limit > -1 && |items| >= limit {
          break;
        }
        Interfere(arrivals(k));
        messageCount := messageCount - 1;
        ghost var s := Abstract();
        var ok, m := messages.Remove();
        assert ok;
        assert Abstract() == s.(queue := s.queue[1..]) && m == s.queue[0];
        items := items + [m];
        k := k + 1;
      }
    }

    /** One turn of the writer's loop after waiting. The result says whether to go on: not after
        the queue was found closed, and not after a write error. */
    method SendMessages(limit: int, arrivals: Arrivals, writeOk: bool) returns (again: bool)
      requires Valid()
      modifies this`accepted, this`frames, messages, messages.nodes
      ensures Valid() && (messages.nodes == old(messages.nodes) || fresh(messages.nodes))
      ensures Abstract() == DoBatch(old(Abstract()), limit, arrivals)
      ensures again == if old(Abstract().queue) == [] then !closed else writeOk
    {
      hide Window, Wrap, TotalSize, Collect;
      ghost var s := Abstract();
      var ok, msg := messages.Remove();
      if !ok {
        return !messages.closed;
      }
      assert Abstract() == s.(queue := s.queue[1..]) && msg == s.queue[0];
      Interfere(arrivals(0));
      var messageCount := messages.Len();
      var items := [msg];
      CollectNothing(Abstract(), items, limit, arrivals);
      if (limit == -1 || limit > 1) && messageCount > 0 {
        items := CollectFrame(msg, messageCount, limit, arrivals);
      }
      frames := frames + [Batch(items, limit)];
      return writeOk;
    }

    method Close(flushRemaining: bool)
      requires Valid()
      modifies this, messages
      ensures Valid()
      ensures Abstract() == DoClose(old(Abstract()), flushRemaining)
    {
      hide Window, Wrap, TotalSize;
      if closed {
        return;
      }
      closed := true;
      if flushRemaining {
        var remaining := messages.CloseRemaining();
        if |remaining| > 0 {
          frames := frames + [Flush(remaining)];
        }
      } else {
        dropped := messages.Contents();
        messages.Close();
      }
    }
  }
}
