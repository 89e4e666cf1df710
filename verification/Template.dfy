/**
  Template rows and the jump table that Build derives from them.

  A template is a list of rows, each row a pipeline of expressions. Build scans the rows with an
  explicit stack of row indices and records, for every row that opens or continues a block, the row
  that continues or closes it.
 */
module Template {

  /** The expression names that steer control flow. `Block` stands for the names that open a block
      besides "if" and "range" (merge, put, delete, pop, get, push, wait, waite); `Call` for every
      name without a role in control flow. "sendu" behaves as "send". */
  datatype Func =
    | If | ElseIf | Else | Range | Break | End | Return | Send | SendSync
    | Block(name: string)
    | Call(name: string)

  datatype Expr = Expr(func: Func, params: seq<string>)

  type Row = seq<Expr>

  predicate Opens(f: Func) {
    f.If? || f.Range? || f.Block?
  }

  predicate Continues(f: Func) {
    f.ElseIf? || f.Else? || f.Break?
  }

  /** What a row means to Build: its first opening, continuing or closing expression decides. */
  datatype Kind = Plain | Opening | Continuing | Closing

  function KindOf(row: Row): Kind {
    if row == [] then Plain
    else if Opens(row[0].func) then Opening
    else if Continues(row[0].func) then Continuing
    else if row[0].func.End? then Closing
    else KindOf(row[1..])
  }

  predicate HasOpen(row: Row) {
    exists i :: 0 <= i < |row| && Opens(row[i].func)
  }

  /** Build's working state: the stack of open rows and the table filled so far. */
  datatype Links = Links(stack: seq<nat>, jumps: map<nat, nat>)

  datatype Built = Rejected(jumps: map<nat, nat>) | Built(links: Links)

  /** One row of Build. */
  function Link(row: Row, idx: nat, l: Links): Built {
    match KindOf(row)
    case Plain => Built(l)
    case Opening => Built(l.(stack := l.stack + [idx]))
    case _ =>
      if l.stack == [] then Rejected(l.jumps)
      else
        var top := l.stack[|l.stack| - 1];
        var rest := l.stack[..|l.stack| - 1];
        var jumps := l.jumps[top := idx];
        Built(Links(if KindOf(row).Closing? then rest else rest + [idx], jumps))
  }

  /** Build over the rows of `seg`, the first of which has index `base`. */
  function LinkAll(seg: seq<Row>, base: nat, l: Links): Built
    decreases |seg|
  {
    if seg == [] then Built(l)
    else
      match Link(seg[0], base, l)
      case Rejected(j) => Rejected(j)
      case Built(l') => LinkAll(seg[1..], base + 1, l')
  }

  const NoLinks := Links([], map[])

  /** Linking two segments one after the other is linking their concatenation. */
  lemma {:induction false} LinkAllConcat(a: seq<Row>, b: seq<Row>, base: nat, l: Links)
    ensures LinkAll(a + b, base, l) ==
            match LinkAll(a, base, l)
            case Rejected(j) => Rejected(j)
            case Built(l') => LinkAll(b, base + |a|, l')
    decreases |a|
  {
    if a == [] {
      assert a + b == b;
    } else {
      assert (a + b)[1..] == a[1..] + b;
      match Link(a[0], base, l)
      case Rejected(_) =>
      case Built(l') => LinkAllConcat(a[1..], b, base + 1, l');
    }
  }

  // ----- Build fails exactly on an underflowing prefix -----

  /** Blocks opened minus blocks closed, counting rows only. */
  function Balance(rows: seq<Row>): int {
    if rows == [] then 0
    else
      Balance(rows[..|rows| - 1]) +
      match KindOf(rows[|rows| - 1])
      case Opening => 1
      case Closing => -1
      case _ => 0
  }

  /** Row k closes or continues a block although none is open in the rows before it. */
  predicate Underflow(rows: seq<Row>, k: nat)
    requires k < |rows|
  {
    (KindOf(rows[k]).Closing? || KindOf(rows[k]).Continuing?) && Balance(rows[..k]) <= 0
  }

  /** Build succeeds on a prefix exactly when no row of it underflows, and then its stack is as deep
      as the prefix is unbalanced. */
  lemma {:induction false} LinkAllBalance(rows: seq<Row>)
    ensures LinkAll(rows, 0, NoLinks).Built? <==> forall k :: 0 <= k < |rows| ==> !Underflow(rows, k)
    ensures LinkAll(rows, 0, NoLinks).Built? ==> |LinkAll(rows, 0, NoLinks).links.stack| == Balance(rows)
    decreases |rows|
  {
    if rows != [] {
      var n := |rows| - 1;
      var front, last := rows[..n], rows[n..];
      assert rows == front + last;
      LinkAllBalance(front);
      LinkAllConcat(front, last, 0, NoLinks);
      assert forall k :: 0 <= k < n ==> rows[..k] == front[..k];
      assert forall k :: 0 <= k < n ==> (Underflow(rows, k) <==> Underflow(front, k));
      assert rows[..n] == front;
      if LinkAll(front, 0, NoLinks).Built? {
        var l := LinkAll(front, 0, NoLinks).links;
        assert last[1..] == [];
        assert LinkAll(last, n, l) == Link(rows[n], n, l);
        assert Link(rows[n], n, l).Built? <==> !Underflow(rows, n);
        assert (forall k :: 0 <= k < |rows| ==> !Underflow(rows, k)) <==> !Underflow(rows, n);
      } else {
        var k :| 0 <= k < n && Underflow(front, k);
        assert Underflow(rows, k);
      }
    }
  }

  // ----- The jump table is well nested -----

  /** Every jump goes strictly forward. */
  ghost predicate Forward(j: map<nat, nat>) {
    forall a :: a in j ==> a < j[a]
  }

  /** No row is the target of two jumps. */
  ghost predicate OneSourceEach(j: map<nat, nat>) {
    forall a, b :: a in j && b in j && j[a] == j[b] ==> a == b
  }

  /** Two jumps are nested or follow one another; they never cross. */
  ghost predicate NeverCross(j: map<nat, nat>) {
    forall a, b :: a in j && b in j && a < b ==> j[a] <= b || j[b] < j[a]
  }

  ghost predicate WellNested(j: map<nat, nat>) {
    Forward(j) && OneSourceEach(j) && NeverCross(j)
  }

  /** What Build keeps true before row n: the table is well nested, the stack holds rows without a
      target in increasing order, and no recorded jump leaps over an open row. */
  ghost predicate LinksOk(l: Links, n: nat) {
    && WellNested(l.jumps)
    && (forall a :: a in l.jumps ==> a < n && l.jumps[a] < n)
    && (forall i :: 0 <= i < |l.stack| ==> l.stack[i] < n && l.stack[i] !in l.jumps)
    && (forall i, k :: 0 <= i < k < |l.stack| ==> l.stack[i] < l.stack[k])
    && (forall a, i :: a in l.jumps && 0 <= i < |l.stack| && a < l.stack[i] ==> l.jumps[a] <= l.stack[i])
  }

  /** Recording a jump from an open row that no earlier jump leaps over keeps the table well nested. */
  lemma NewJumpKeepsNested(j: map<nat, nat>, top: nat, n: nat)
    requires WellNested(j) && top < n && top !in j
    requires forall a :: a in j ==> j[a] < n && (a < top ==> j[a] <= top)
    ensures WellNested(j[top := n])
  {
  }

  /** Recording the jump from the top of the stack to row n. */
  lemma PopKeepsOk(l: Links, n: nat)
    requires LinksOk(l, n) && l.stack != []
    ensures var top := l.stack[|l.stack| - 1];
            LinksOk(Links(l.stack[..|l.stack| - 1], l.jumps[top := n]), n + 1)
  {
    var top := l.stack[|l.stack| - 1];
    NewJumpKeepsNested(l.jumps, top, n);
    hide Forward, OneSourceEach, NeverCross;
    var rest := l.stack[..|l.stack| - 1];
    assert forall i :: 0 <= i < |rest| ==> rest[i] == l.stack[i] && rest[i] < top;
  }

  /** Pushing row n keeps it so as well. */
  lemma PushKeepsOk(l: Links, m: nat, n: nat)
    requires LinksOk(l, m) && m <= n + 1
    requires forall i :: 0 <= i < |l.stack| ==> l.stack[i] < n
    requires forall a :: a in l.jumps ==> a < n && l.jumps[a] <= n
    ensures LinksOk(l.(stack := l.stack + [n]), n + 1)
  {
  }

  /** A continuing row does both. */
  lemma ReplaceKeepsOk(l: Links, n: nat)
    requires LinksOk(l, n) && l.stack != []
    ensures var top := l.stack[|l.stack| - 1];
            LinksOk(Links(l.stack[..|l.stack| - 1] + [n], l.jumps[top := n]), n + 1)
  {
    PopKeepsOk(l, n);
    hide WellNested;
    var top := l.stack[|l.stack| - 1];
    PushKeepsOk(Links(l.stack[..|l.stack| - 1], l.jumps[top := n]), n + 1, n);
  }

  lemma LinkKeepsOk(row: Row, n: nat, l: Links)
    requires LinksOk(l, n)
    requires Link(row, n, l).Built?
    ensures LinksOk(Link(row, n, l).links, n + 1)
  {
    match KindOf(row)
    case Plain =>
    case Opening => PushKeepsOk(l, n, n);
    case Closing => PopKeepsOk(l, n);
    case Continuing => ReplaceKeepsOk(l, n);
  }

  lemma OkIsNested(l: Links, n: nat)
    requires LinksOk(l, n)
    ensures WellNested(l.jumps)
  {
  }

  lemma {:induction false} LinkAllKeepsOk(seg: seq<Row>, base: nat, l: Links)
    requires LinksOk(l, base)
    ensures LinkAll(seg, base, l).Built? ==> LinksOk(LinkAll(seg, base, l).links, base + |seg|)
    ensures LinkAll(seg, base, l).Rejected? ==> WellNested(LinkAll(seg, base, l).jumps)
    decreases |seg|
  {
    hide LinksOk, WellNested;
    if seg != [] {
      match Link(seg[0], base, l) {
        case Rejected(_) => OkIsNested(l, base);
        case Built(l') =>
          LinkKeepsOk(seg[0], base, l);
          LinkAllKeepsOk(seg[1..], base + 1, l');
      }
    }
  }

  /** Rows that open or continue a block. */
  predicate IsSource(row: Row) {
    KindOf(row).Opening? || KindOf(row).Continuing?
  }

  /** The sources met so far are exactly the rows of the table and of the stack. */
  lemma {:induction false} LinkAllSources(rows: seq<Row>)
    requires LinkAll(rows, 0, NoLinks).Built?
    ensures var l := LinkAll(rows, 0, NoLinks).links;
            forall k: nat :: (k in l.jumps || k in l.stack) <==> (k < |rows| && IsSource(rows[k]))
    decreases |rows|
  {
    if rows != [] {
      var n := |rows| - 1;
      var front, last := rows[..n], rows[n..];
      assert rows == front + last;
      LinkAllConcat(front, last, 0, NoLinks);
      LinkAllSources(front);
      var l := LinkAll(front, 0, NoLinks).links;
      assert last[1..] == [];
      assert LinkAll(last, n, l) == Link(rows[n], n, l);
      var l' := Link(rows[n], n, l).links;
      assert forall k: nat :: k in l.jumps || k in l.stack <==> k < n && IsSource(front[k]);
      forall k: nat
        ensures (k in l'.jumps || k in l'.stack) <==>
                (k in l.jumps || k in l.stack || (k == n && IsSource(rows[n])))
      {
        if KindOf(rows[n]).Closing? || KindOf(rows[n]).Continuing? {
          var top, rest := l.stack[|l.stack| - 1], l.stack[..|l.stack| - 1];
          assert l.stack == rest + [top];
          assert l'.jumps == l.jumps[top := n];
          assert k in l.stack <==> k in rest || k == top;
        }
      }
      assert forall k: nat :: k < n ==> rows[k] == front[k];
    }
  }

  // ----- Which row a jump leads to -----

  /** How many blocks are open before row k. */
  function Depth(rows: seq<Row>, k: nat): int
    requires k <= |rows|
  {
    Balance(rows[..k])
  }

  /** Row k continues or closes a block. */
  predicate Ends(row: Row) {
    KindOf(row).Continuing? || KindOf(row).Closing?
  }

  /** Row t is the first one after row k that continues or closes the block row k left open. */
  predicate Matches(rows: seq<Row>, k: nat, t: nat) {
    && k < t < |rows|
    && Ends(rows[t])
    && Depth(rows, t) == Depth(rows, k + 1)
    && forall u :: k < u < t && Ends(rows[u]) ==> Depth(rows, u) > Depth(rows, k + 1)
  }

  /** Row s, i-th on the stack, is still waiting: no row between s and n ended its block. */
  predicate Waiting(rows: seq<Row>, n: nat, s: nat, i: nat) {
    && s < n <= |rows|
    && Depth(rows, s + 1) == i + 1
    && forall u :: s < u < n && Ends(rows[u]) ==> Depth(rows, u) > i + 1
  }

  ghost predicate Tracks(rows: seq<Row>, n: nat, l: Links) {
    && n <= |rows|
    && |l.stack| == Depth(rows, n)
    && (forall i :: 0 <= i < |l.stack| ==> Waiting(rows, n, l.stack[i], i))
    && (forall a :: a in l.jumps ==> Matches(rows, a, l.jumps[a]))
  }

  lemma LinkTracks(rows: seq<Row>, n: nat, l: Links)
    requires n < |rows| && Tracks(rows, n, l)
    requires Link(rows[n], n, l).Built?
    ensures Tracks(rows, n + 1, Link(rows[n], n, l).links)
  {
    var l' := Link(rows[n], n, l).links;
    assert rows[..n + 1][..n] == rows[..n];
    if Ends(rows[n]) {
      var top := l.stack[|l.stack| - 1];
      assert Waiting(rows, n, top, |l.stack| - 1);
      assert Matches(rows, top, n);
      assert l'.jumps == l.jumps[top := n];
    }
    forall i | 0 <= i < |l'.stack|
      ensures Waiting(rows, n + 1, l'.stack[i], i)
    {
      if l'.stack[i] != n {
        assert l'.stack[i] == l.stack[i];
        assert Waiting(rows, n, l.stack[i], i);
      }
    }
  }

  /** Every jump Build records leads to the matching row. */
  lemma {:induction false} LinkAllTracks(rows: seq<Row>, n: nat)
    requires n <= |rows|
    requires LinkAll(rows[..n], 0, NoLinks).Built?
    ensures Tracks(rows, n, LinkAll(rows[..n], 0, NoLinks).links)
    decreases n
  {
    if n > 0 {
      var front, last := rows[..n - 1], [rows[n - 1]];
      assert rows[..n] == front + last;
      LinkAllConcat(front, last, 0, NoLinks);
      LinkAllTracks(rows, n - 1);
      var l := LinkAll(front, 0, NoLinks).links;
      assert LinkAll(last, n - 1, l) == Link(rows[n - 1], n - 1, l);
      LinkTracks(rows, n - 1, l);
    }
  }

  /** The matching row is unique, so the table is determined by the rows alone: it maps every row that
      opens or continues a block to its matching row. */
  lemma JumpsAreMatches(rows: seq<Row>)
    requires LinkAll(rows, 0, NoLinks).Built?
    ensures var l := LinkAll(rows, 0, NoLinks).links;
            && (forall k :: k in l.jumps ==> k < |rows| && IsSource(rows[k]) && Matches(rows, k, l.jumps[k]))
            && (forall k: nat, t: nat :: k < |rows| && IsSource(rows[k]) && Matches(rows, k, t) ==> k in l.jumps && l.jumps[k] == t)
            && (Balance(rows) == 0 ==> forall k: nat :: k < |rows| && IsSource(rows[k]) ==> k in l.jumps)
  {
    var l := LinkAll(rows, 0, NoLinks).links;
    assert rows[..|rows|] == rows;
    LinkAllTracks(rows, |rows|);
    LinkAllSources(rows);
    LinkAllBalance(rows);
    forall k: nat, t: nat | k < |rows| && IsSource(rows[k]) && Matches(rows, k, t)
      ensures k in l.jumps && l.jumps[k] == t
    {
      if k in l.jumps {
        assert Matches(rows, k, l.jumps[k]);
      }
    }
  }

  // ----- Build -----

  /** The stack of row indices. */
  class Stack {
    var items: seq<nat>

    constructor ()
      ensures items == []
    {
      items := [];
    }

    method Push(item: nat)
      modifies this
      ensures items == old(items) + [item]
    {
      items := items + [item];
    }

    method Pop() returns (ok: bool, item: nat)
      modifies this
      ensures ok <==> old(items) != []
      ensures ok ==> old(items) == items + [item]
      ensures !ok ==> items == old(items)
    {
      if |items| == 0 {
        return false, 0;
      }
      item := items[|items| - 1];
      items := items[..|items| - 1];
      ok := true;
    }
  }

  /** The first expression of a row that opens, continues or closes a block. */
  method Classify(row: Row) returns (kind: Kind)
    ensures kind == KindOf(row)
  {
    var i := 0;
    while i < |row|
      invariant 0 <= i <= |row|
      invariant KindOf(row) == KindOf(row[i..])
    {
      assert row[i..][1..] == row[i + 1..];
      if Opens(row[i].func) {
        return Opening;
      } else if Continues(row[i].func) {
        return Continuing;
      } else if row[i].func.End? {
        return Closing;
      }
      i := i + 1;
    }
    return Plain;
  }

  class Compiler {
    var exps: seq<Row>
    var indexRun: map<nat, nat>

    constructor (rows: seq<Row>)
      ensures exps == rows && indexRun == map[]
    {
      exps := rows;
      indexRun := map[];
    }

    /** Fills the jump table; fails, keeping what it filled so far, on an underflowing row. */
    method Build() returns (ok: bool)
      requires indexRun == map[]
      modifies this
      ensures exps == old(exps)
      ensures ok <==> forall k :: 0 <= k < |exps| ==> !Underflow(exps, k)
      ensures WellNested(indexRun)
      ensures ok <==> LinkAll(exps, 0, NoLinks).Built?
      ensures ok ==> indexRun == LinkAll(exps, 0, NoLinks).links.jumps
    {
      LinkAllBalance(exps);
      LinkAllKeepsOk(exps, 0, NoLinks);
      var stack := new Stack();
      var idx := 0;
      while idx < |exps|
        invariant 0 <= idx <= |exps|
        invariant exps == old(exps)
        invariant LinkAll(exps, 0, NoLinks) == LinkAll(exps[idx..], idx, Links(stack.items, indexRun))
        modifies this`indexRun, stack
      {
        assert exps[idx..][0] == exps[idx] && exps[idx..][1..] == exps[idx + 1..];
        var kind := Classify(exps[idx]);
        if kind.Opening? {
          stack.Push(idx);
        } else if kind.Continuing? || kind.Closing? {
          var before := stack.items;
          var popped, jump := stack.Pop();
          if !popped {
            return false;
          }
          assert before[..|before| - 1] == stack.items;
          indexRun := indexRun[jump := idx];
          if kind.Continuing? {
            stack.Push(idx);
          }
        }
        idx := idx + 1;
      }
      assert exps[idx..] == [];
      return true;
    }
  }
}
