/**
  The callback queue: a linked list that callbacks are pushed to and one dispatcher takes them from. A
  node without a callback closes the queue.
 */
module CallbackQueue {

  type Callback = int

  datatype Entry = Run(cb: Callback) | Close

  // ----- Every interleaving of pushes and the dispatcher -----

  /** What has been pushed and run so far, what is queued, and whether the dispatcher has returned. */
  datatype State = State(pushed: seq<Entry>, ran: seq<Callback>, queue: seq<Entry>, stopped: bool)

  datatype Event = Push(entry: Entry) | Take

  const Initial := State([], [], [], false)

  /** Take is one round of the dispatcher; it waits, that is does nothing, when the queue is empty. */
  function Step(s: State, e: Event): State {
    match e
    case Push(x) => s.(pushed := s.pushed + [x], queue := s.queue + [x])
    case Take =>
      if s.stopped || s.queue == [] then s
      else if s.queue[0].Close? then s.(queue := s.queue[1..], stopped := true)
      else s.(queue := s.queue[1..], ran := s.ran + [s.queue[0].cb])
  }

  function After(events: seq<Event>): State {
    if events == [] then Initial else Step(After(events[..|events| - 1]), events[|events| - 1])
  }

  /** The callbacks pushed before the first Close. */
  function BeforeClose(entries: seq<Entry>): seq<Callback> {
    if entries == [] || entries[0].Close? then [] else [entries[0].cb] + BeforeClose(entries[1..])
  }

  function Entries(cbs: seq<Callback>): seq<Entry> {
    seq(|cbs|, i requires 0 <= i < |cbs| => Run(cbs[i]))
  }

  ghost predicate Conserved(s: State) {
    s.pushed == Entries(s.ran) + (if s.stopped then [Close] else []) + s.queue
  }

  lemma {:induction false} AfterConserves(events: seq<Event>)
    ensures Conserved(After(events))
    decreases |events|
  {
    if events != [] {
      var s, e := After(events[..|events| - 1]), events[|events| - 1];
      AfterConserves(events[..|events| - 1]);
      if e.Take? && !s.stopped && s.queue != [] {
        assert s.queue == [s.queue[0]] + s.queue[1..];
        if s.queue[0].Run? {
          assert Entries(s.ran + [s.queue[0].cb]) == Entries(s.ran) + [s.queue[0]];
        }
      }
    }
  }

  lemma {:induction false} BeforeCloseOf(cbs: seq<Callback>, rest: seq<Entry>)
    ensures BeforeClose(Entries(cbs) + rest) == cbs + BeforeClose(rest)
    decreases |cbs|
  {
    if cbs == [] {
      assert Entries(cbs) + rest == rest;
    } else {
      assert (Entries(cbs) + rest)[1..] == Entries(cbs[1..]) + rest;
      BeforeCloseOf(cbs[1..], rest);
    }
  }

  /** Callbacks run once each and in push order. At any moment those that have run are the first of
      those pushed before the first Close; when the dispatcher has returned, or has emptied the queue,
      they are all of them. None pushed after Close ever runs. */
  lemma RunsInOrder(events: seq<Event>)
    ensures var s := After(events);
            && s.ran <= BeforeClose(s.pushed)
            && (s.stopped || s.queue == [] ==> s.ran == BeforeClose(s.pushed))
            && (s.stopped ==> |s.ran| < |s.pushed| && s.pushed[|s.ran|] == Close)
  {
    AfterConserves(events);
    var s := After(events);
    var rest := (if s.stopped then [Close] else []) + s.queue;
    assert s.pushed == Entries(s.ran) + rest;
    BeforeCloseOf(s.ran, rest);
  }

  lemma NoEntries()
    ensures Entries([]) == []
  {
  }

  lemma EntriesSnoc(cbs: seq<Callback>, cb: Callback)
    ensures Entries(cbs + [cb]) == Entries(cbs) + [Run(cb)]
  {
  }

  /** Entries without a Close. */
  lemma AllRun(cbs: seq<Callback>)
    ensures BeforeClose(Entries(cbs)) == cbs && Close !in Entries(cbs)
  {
    BeforeCloseOf(cbs, []);
    assert Entries(cbs) + [] == Entries(cbs);
  }

  lemma ClosedAfter(cbs: seq<Callback>, rest: seq<Entry>)
    ensures var all := Entries(cbs) + ([Close] + rest);
            BeforeClose(all) == cbs && Close in all
  {
    var all := Entries(cbs) + ([Close] + rest);
    BeforeCloseOf(cbs, [Close] + rest);
    assert all[|cbs|] == Close;
  }

  /** The entries of all batches in order. */
  function Joined(batches: seq<seq<Entry>>): seq<Entry> {
    if batches == [] then [] else batches[0] + Joined(batches[1..])
  }

  lemma {:induction false} JoinedConcat(a: seq<seq<Entry>>, b: seq<seq<Entry>>)
    ensures Joined(a + b) == Joined(a) + Joined(b)
    decreases |a|
  {
    if a == [] {
      assert a + b == b;
    } else {
      assert (a + b)[1..] == a[1..] + b;
      JoinedConcat(a[1..], b);
    }
  }

  lemma JoinedNone(batches: seq<seq<Entry>>)
    ensures Joined(batches[..0]) == []
  {
  }

  lemma JoinedNext(batches: seq<seq<Entry>>, i: nat)
    requires i < |batches|
    ensures Joined(batches[..i + 1]) == Joined(batches[..i]) + batches[i]
  {
    assert batches[..i + 1] == batches[..i] + [batches[i]];
    JoinedConcat(batches[..i], [batches[i]]);
    assert [batches[i]][1..] == [];
  }

  lemma JoinedRest(batches: seq<seq<Entry>>, i: nat)
    requires i <= |batches|
    ensures Joined(batches) == Joined(batches[..i]) + Joined(batches[i..])
  {
    assert batches == batches[..i] + batches[i..];
    JoinedConcat(batches[..i], batches[i..]);
  }

  lemma Longer(a: seq<Entry>, b: seq<Entry>, c: seq<Entry>, d: seq<Entry>, more: seq<Entry>)
    requires a + b == c + d
    ensures a + (b + more) == c + (d + more)
  {
    assert a + (b + more) == a + b + more && c + (d + more) == c + d + more;
  }

  // ----- The linked list -----

  class Node {
    const entry: Entry
    var next: Node?

    constructor (entry: Entry)
      ensures this.entry == entry && next == null
    {
      this.entry, next := entry, null;
    }
  }

  class Queue {
    var head: Node?
    var tail: Node?
    ghost var spine: seq<Node>

    /** `spine` lists the nodes reachable from head: head is nil exactly when tail is, and tail is the
        last of them. */
    ghost predicate Valid()
      reads this, spine
    {
      && (head == null <==> spine == []) && (tail == null <==> spine == [])
      && (spine != [] ==> head == spine[0] && tail == spine[|spine| - 1])
      && (spine != [] ==> spine[|spine| - 1].next == null)
      && (forall i, j :: 0 <= i && j == i + 1 < |spine| ==> spine[i].next == spine[j])
      && (forall i, j :: 0 <= i < j < |spine| ==> spine[i] != spine[j])
    }

    ghost function Contents(): seq<Entry>
      reads this
    {
      seq(|spine|, i requires 0 <= i < |spine| reads this => spine[i].entry)
    }

    constructor ()
      ensures Valid() && Contents() == []
    {
      head, tail, spine := null, null, [];
    }

    /** Appends an entry. Pushing no callback without closing is refused. */
    method PushOrClose(cb: Entry, close: bool) returns (ok: bool)
      requires Valid()
      modifies this, tail
      ensures Valid() && old(spine) <= spine && fresh(spine[|old(spine)|..])
      ensures if ok then fresh(tail) else tail == old(tail)
      ensures ok <==> close || cb.Run?
      ensures Contents() == if ok then old(Contents()) + [cb] else old(Contents())
    {
      if !close && cb.Close? {
        return false;
      }
      var node := new Node(cb);
      if tail != null {
        tail.next := node;
      } else {
        head := node;
      }
      tail := node;
      spine := spine + [node];
      return true;
    }

    /** One round of the dispatcher on a queue that is not empty. */
    method TakeFirst() returns (entry: Entry)
      requires Valid() && !IsEmpty()
      modifies this
      ensures Valid() && old(Contents()) == [entry] + Contents() && spine == old(spine)[1..]
      ensures tail == null || tail == old(tail)
    {
      ghost var before := spine;
      assert |before| > 1 ==> before[0] != before[|before| - 1] && before[0].next == before[1];
      var curr := head;
      head := curr.next;
      if curr == tail {
        tail := null;
      }
      spine := spine[1..];
      assert before == [curr] + spine;
      assert forall i :: 0 <= i < |spine| ==> spine[i] == before[i + 1];
      assert Contents() == old(Contents())[1..];
      assert old(Contents()) == [curr.entry] + Contents();
      return curr.entry;
    }

    /** Entries pushed by others, in order. */
    method PushAll(entries: seq<Entry>)
      requires Valid()
      modifies this, tail
      ensures Valid() && Contents() == old(Contents()) + entries
      ensures tail == old(tail) || fresh(tail)
    {
      hide Valid, Contents;
      assert entries[..0] == [];
      for i := 0 to |entries|
        invariant Valid() && Contents() == old(Contents()) + entries[..i]
        invariant tail == old(tail) || fresh(tail)
      {
        var ok := PushOrClose(entries[i], entries[i].Close?);
        assert entries[..i + 1] == entries[..i] + [entries[i]];
      }
      assert entries[..|entries|] == entries;
    }

    /** The dispatcher's loop. Before each round others have pushed the next batch of arrivals; a round
        on an empty queue waits. The loop ends when it has taken a Close, or is left waiting when
        nothing more arrives. It has run the callbacks pushed before the first Close, in order. */
    method Dispatch(arrivals: seq<seq<Entry>>) returns (ran: seq<Callback>, stopped: bool, rounds: nat)
      requires Valid()
      modifies this, tail
      ensures Valid() && rounds <= |arrivals|
      ensures ran == BeforeClose(old(Contents()) + Joined(arrivals))
      ensures stopped <==> Close in old(Contents()) + Joined(arrivals)
      ensures old(Contents()) + Joined(arrivals[..rounds]) == Entries(ran) + (if stopped then [Close] else []) + Contents()
      ensures !stopped ==> rounds == |arrivals| && Contents() == []
    {
      hide Entries, BeforeClose, Valid, Contents, Joined;
      ran, rounds := [], 0;
      ghost var all := Contents();
      NoEntries();
      JoinedNone(arrivals);
      while rounds < |arrivals| || !IsEmpty()
        invariant Valid() && rounds <= |arrivals|
        invariant tail == null || tail == old(tail) || fresh(tail)
        invariant all + Joined(arrivals[..rounds]) == Entries(ran) + Contents()
        decreases |arrivals| - rounds, |Contents()|
      {
        if rounds < |arrivals| {
          JoinedNext(arrivals, rounds);
          ghost var queued := Contents();
          PushAll(arrivals[rounds]);
          Longer(all, Joined(arrivals[..rounds]), Entries(ran), queued, arrivals[rounds]);
          rounds := rounds + 1;
        }
        if !IsEmpty() {
          var entry := TakeFirst();
          ghost var rest := Contents();
          if entry.Close? {
            assert all + Joined(arrivals[..rounds]) == Entries(ran) + ([Close] + rest);
            ghost var later := Joined(arrivals[rounds..]);
            JoinedRest(arrivals, rounds);
            ClosedAfter(ran, rest + later);
            Longer(all, Joined(arrivals[..rounds]), Entries(ran), [Close] + rest, later);
            assert [Close] + rest + later == [Close] + (rest + later);
            return ran, true, rounds;
          }
          EntriesSnoc(ran, entry.cb);
          ran := ran + [entry.cb];
        }
      }
      assert arrivals[..rounds] == arrivals;
      assert all + Joined(arrivals) == Entries(ran) + [] == Entries(ran);
      AllRun(ran);
      return ran, false, rounds;
    }

    predicate IsEmpty()
      requires Valid()
      reads this, spine
      ensures IsEmpty() <==> Contents() == []
    {
      head == null
    }
  }
}
