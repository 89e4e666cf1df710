/**
  The message queue of a connection: a ring buffer that doubles when it is full and halves when it has
  become half empty.
 */
module Queue {

  datatype Item = Item(data: string, channel: string, frameType: int)

  function TotalSize(items: seq<Item>): nat {
    if items == [] then 0 else |items[0].data| + TotalSize(items[1..])
  }

  lemma {:induction false} TotalSizeConcat(a: seq<Item>, b: seq<Item>)
    ensures TotalSize(a + b) == TotalSize(a) + TotalSize(b)
    decreases |a|
  {
    if a == [] {
      assert a + b == b;
    } else {
      assert (a + b)[1..] == a[1..] + b;
      TotalSizeConcat(a[1..], b);
    }
  }

  lemma TotalSizeAdd(a: seq<Item>, i: Item)
    ensures TotalSize(a + [i]) == TotalSize(a) + |i.data|
  {
    TotalSizeConcat(a, [i]);
  }

  const NoItem := Item("", "", 0)

  /** The cnt elements of a ring that start at position head. */
  function Window(ring: seq<Item>, head: nat, cnt: nat): (w: seq<Item>)
    requires cnt <= |ring| && head <= |ring|
    ensures |w| == cnt
  {
    if head + cnt <= |ring| then ring[head..head + cnt] else ring[head..] + ring[..head + cnt - |ring|]
  }

  /** The position cnt places after head. */
  function Wrap(head: nat, cnt: nat, n: nat): nat {
    if head + cnt < n then head + cnt else head + cnt - n
  }

  class Queue {
    var nodes: array<Item>
    var head: nat
    var tail: nat
    var cnt: nat
    var size: int
    var closed: bool
    const initCap: nat

    /** An open queue has room for initCap items at least; it never has twice the room it needs. */
    ghost predicate Valid()
      reads this, nodes
    {
      && initCap >= 1
      && (closed ==> cnt == 0 && size == 0)
      && (!closed ==>
            && nodes.Length >= initCap
            && head < nodes.Length && cnt <= nodes.Length
            && tail == Wrap(head, cnt, nodes.Length)
            && size == TotalSize(Window(nodes[..], head, cnt))
            && (nodes.Length / 2 >= initCap ==> cnt > nodes.Length / 2))
    }

    /** The queued items, first to leave first. */
    ghost function Contents(): (s: seq<Item>)
      requires Valid()
      reads this, nodes
      ensures |s| == cnt
    {
      if closed then [] else Window(nodes[..], head, cnt)
    }

    constructor (initialCapacity: nat)
      requires initialCapacity >= 1
      ensures Valid() && Contents() == [] && !closed && fresh(nodes) && initCap == initialCapacity
    {
      initCap := initialCapacity;
      nodes := new Item[initialCapacity](_ => NoItem);
      head, tail, cnt, size, closed := 0, 0, 0, 0, false;
    }

    /** Moves the items to a ring of n places. The slices it takes are in range because the queue is
        not empty and n places hold what it holds. */
    method Resize(n: nat)
      requires initCap >= 1 && !closed && head < nodes.Length && 1 <= cnt <= nodes.Length && cnt <= n
      requires tail == Wrap(head, cnt, nodes.Length)
      modifies this`nodes, this`head, this`tail
      ensures fresh(nodes) && nodes.Length == n && head == 0 && tail == Wrap(0, cnt, n)
      ensures Window(nodes[..], 0, cnt) == old(Window(nodes[..], head, cnt))
    {
      var moved := new Item[n](_ => NoItem);
      var len := nodes.Length;
      ghost var items := Window(nodes[..], head, cnt);
      if head < tail {
        forall i | 0 <= i < tail - head {
          moved[i] := nodes[head + i];
        }
        assert moved[..cnt] == items;
      } else {
        forall i | 0 <= i < len - head {
          moved[i] := nodes[head + i];
        }
        forall i | 0 <= i < tail {
          moved[len - head + i] := nodes[i];
        }
        assert moved[..cnt] == items;
      }
      ModSmall(cnt, n);
      tail := cnt % n;
      head := 0;
      nodes := moved;
    }

    /** Appends an item unless the queue is closed. */
    method Add(i: Item) returns (ok: bool)
      requires Valid()
      modifies this, nodes
      ensures Valid() && closed == old(closed) && (nodes == old(nodes) || fresh(nodes))
      ensures ok == !closed
      ensures Contents() == if ok then old(Contents()) + [i] else old(Contents())
    {
      hide Window, Wrap, TotalSize;
      if closed {
        return false;
      }
      ghost var items := Contents();
      if cnt == nodes.Length {
        Resize(cnt * 2);
      }
      assert Window(nodes[..], head, cnt) == items;
      ghost var before := nodes[..];
      WindowAdd(before, head, cnt, i);
      nodes[tail] := i;
      assert nodes[..] == before[tail := i];
      TotalSizeAdd(items, i);
      tail := (tail + 1) % nodes.Length;
      size := size + |i.data|;
      cnt := cnt + 1;
      return true;
    }

    /** Takes the first item; fails exactly when there is none. */
    method Remove() returns (ok: bool, item: Item)
      requires Valid()
      modifies this, nodes
      ensures Valid() && closed == old(closed) && (nodes == old(nodes) || fresh(nodes))
      ensures ok <==> old(Contents()) != []
      ensures ok ==> old(Contents()) == [item] + Contents()
      ensures !ok ==> Contents() == old(Contents())
    {
      hide Window, Wrap, TotalSize;
      if cnt == 0 {
        return false, NoItem;
      }
      ghost var items := Contents();
      WindowRemove(nodes[..], head, cnt);
      item := nodes[head];
      head := (head + 1) % nodes.Length;
      cnt := cnt - 1;
      size := size - |item.data|;
      assert Window(nodes[..], head, cnt) == items[1..];
      var n := nodes.Length / 2;
      if n >= initCap && cnt <= n {
        Resize(n);
      }
      return true, item;
    }

    method Len() returns (l: nat)
      requires Valid()
      ensures l == |Contents()|
    {
      return cnt;
    }

    method Size() returns (s: int)
      requires Valid()
      ensures s == TotalSize(Contents())
    {
      return size;
    }

    /** Closes the queue and discards what it holds. */
    method Close()
      requires Valid()
      modifies this
      ensures Valid() && closed && Contents() == [] && fresh(nodes)
    {
      closed, cnt, size := true, 0, 0;
      nodes := new Item[0];
    }

    /** Closes the queue and hands out what it held. */
    method CloseRemaining() returns (rem: seq<Item>)
      requires Valid()
      modifies this
      ensures Valid() && closed && Contents() == []
      ensures rem == old(Contents())
    {
      hide Window, Wrap, TotalSize;
      if closed {
        return [];
      }
      rem := [];
      ghost var items := Contents();
      while cnt > 0
        invariant !closed && nodes == old(nodes) && nodes[..] == old(nodes[..])
        invariant head < nodes.Length && cnt <= nodes.Length
        invariant rem + Window(nodes[..], head, cnt) == items
      {
        WindowRemove(nodes[..], head, cnt);
        var i := nodes[head];
        head := (head + 1) % nodes.Length;
        cnt := cnt - 1;
        rem := rem + [i];
      }
      closed, size := true, 0;
      nodes := new Item[0];
    }
  }

  lemma ModSmall(cnt: nat, n: nat)
    requires 1 <= cnt <= n
    ensures cnt % n == Wrap(0, cnt, n)
  {
  }

  lemma WindowAdd(ring: seq<Item>, head: nat, cnt: nat, i: Item)
    requires head < |ring| && cnt < |ring|
    ensures var tail := Wrap(head, cnt, |ring|);
            && tail < |ring| && Wrap(head, cnt + 1, |ring|) == (tail + 1) % |ring|
            && Window(ring[tail := i], head, cnt + 1) == Window(ring, head, cnt) + [i]
  {
    hide Window, Wrap;
    PlaceAfter(head, cnt, |ring|);
    WindowSnoc(ring, head, cnt, i);
  }

  lemma PlaceAfter(head: nat, cnt: nat, n: nat)
    requires head < n && cnt < n
    ensures var tail := Wrap(head, cnt, n); tail < n && Wrap(head, cnt + 1, n) == (tail + 1) % n
  {
    ModNext(Wrap(head, cnt, n), n);
  }

  lemma WindowSnoc(ring: seq<Item>, head: nat, cnt: nat, i: Item)
    requires head < |ring| && cnt < |ring| && Wrap(head, cnt, |ring|) < |ring|
    ensures Window(ring[Wrap(head, cnt, |ring|) := i], head, cnt + 1) == Window(ring, head, cnt) + [i]
  {
    var tail := Wrap(head, cnt, |ring|);
    if head + cnt < |ring| {
      assert ring[tail := i][head..tail + 1] == ring[head..tail] + [i];
    } else {
      assert ring[tail := i][head..] == ring[head..];
      assert ring[tail := i][..tail + 1] == ring[..tail] + [i];
    }
  }

  lemma WindowRemove(ring: seq<Item>, head: nat, cnt: nat)
    requires head < |ring| && 1 <= cnt <= |ring|
    ensures var next := (head + 1) % |ring|;
            && next < |ring| && Wrap(next, cnt - 1, |ring|) == Wrap(head, cnt, |ring|)
            && Window(ring, head, cnt) == [ring[head]] + Window(ring, next, cnt - 1)
            && Window(ring, next, cnt - 1) == Window(ring, head, cnt)[1..]
            && TotalSize(Window(ring, head, cnt)) == |ring[head].data| + TotalSize(Window(ring, next, cnt - 1))
  {
    hide Wrap, Window, TotalSize;
    NextPlace(head, cnt, |ring|);
    WindowTail(ring, head, cnt);
    var w := Window(ring, head, cnt);
    assert w == [w[0]] + w[1..];
    TotalSizeFirst(w);
  }

  lemma NextPlace(head: nat, cnt: nat, n: nat)
    requires head < n && 1 <= cnt <= n
    ensures var next := (head + 1) % n;
            next == (if head + 1 == n then 0 else head + 1) && Wrap(next, cnt - 1, n) == Wrap(head, cnt, n)
  {
    ModNext(head, n);
  }

  lemma ModNext(i: nat, n: nat)
    requires i < n
    ensures (i + 1) % n == if i + 1 == n then 0 else i + 1
  {
  }

  lemma WindowTail(ring: seq<Item>, head: nat, cnt: nat)
    requires head < |ring| && 1 <= cnt <= |ring|
    ensures Window(ring, head, cnt)[0] == ring[head]
    ensures Window(ring, if head + 1 == |ring| then 0 else head + 1, cnt - 1) == Window(ring, head, cnt)[1..]
  {
  }

  lemma TotalSizeFirst(w: seq<Item>)
    requires w != []
    ensures TotalSize(w) == |w[0].data| + TotalSize(w[1..])
  {
  }
}
