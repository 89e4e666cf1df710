/**
  Structured programs: what a template means, and that the machine computes it.

  A program is a list of plain rows, blocks, blocks with an "else", and ranges. Flattened to rows and
  built, it is run by the machine of module Runtime; interpreted recursively, it needs neither rows nor
  jumps. Module Simulation shows that the two agree.
 */
module Structured {
  import opened Common
  import opened Template
  import opened Runtime

  datatype Prog = Nil | Cons(head: Stmt, tail: Prog)

  datatype Stmt =
    | Line(row: Row)
    | Guard(header: Row, body: Prog)
    | GuardElse(header: Row, body: Prog, els: Prog)
    | Loop(range: Expr, body: Prog)

  const ElseExpr := Expr(Else, [])
  const EndExpr := Expr(End, [])

  /** Expressions of a plain row. */
  predicate PlainFunc(f: Func) {
    f.Call? || f.Send? || f.SendSync? || f.Return?
  }

  /** Expressions of the row that opens a block other than a range. */
  predicate HeaderFunc(f: Func) {
    PlainFunc(f) || f.If? || f.Block?
  }

  predicate PlainRow(row: Row) {
    forall k :: 0 <= k < |row| ==> PlainFunc(row[k].func)
  }

  predicate HeaderRow(h: Row) {
    HasOpen(h) && forall k :: 0 <= k < |h| ==> HeaderFunc(h[k].func)
  }

  predicate LoopFreeStmt(s: Stmt) {
    match s
    case Line(_) => true
    case Guard(_, body) => LoopFree(body)
    case GuardElse(_, body, els) => LoopFree(body) && LoopFree(els)
    case Loop(_, _) => false
  }

  predicate LoopFree(p: Prog) {
    p.Cons? ==> LoopFreeStmt(p.head) && LoopFree(p.tail)
  }

  predicate WfStmt(s: Stmt) {
    match s
    case Line(row) => PlainRow(row)
    case Guard(h, body) => HeaderRow(h) && Wf(body)
    case GuardElse(h, body, els) => HeaderRow(h) && Wf(body) && Wf(els)
    case Loop(range, body) => range.func.Range? && |range.params| >= 3 && Wf(body)
  }

  /** Every row is made of the expressions its place in the program allows. */
  predicate Wf(p: Prog) {
    p.Cons? ==> WfStmt(p.head) && Wf(p.tail)
  }

  predicate UnnestedStmt(s: Stmt) {
    match s
    case Line(_) => true
    case Guard(_, body) => Unnested(body)
    case GuardElse(_, body, els) => Unnested(body) && Unnested(els)
    case Loop(_, body) => LoopFree(body)
  }

  /** No range lies inside another one. */
  predicate Unnested(p: Prog) {
    p.Cons? ==> UnnestedStmt(p.head) && Unnested(p.tail)
  }

  // ----- Flattening -----

  function FlatStmt(s: Stmt): (rows: seq<Row>)
    ensures |rows| >= 1
  {
    match s
    case Line(row) => [row]
    case Guard(h, body) => [h] + Flat(body) + [[EndExpr]]
    case GuardElse(h, body, els) => [h] + Flat(body) + [[ElseExpr]] + Flat(els) + [[EndExpr]]
    case Loop(range, body) => [[range]] + Flat(body) + [[EndExpr]]
  }

  function Flat(p: Prog): seq<Row> {
    match p
    case Nil => []
    case Cons(s, tail) => FlatStmt(s) + Flat(tail)
  }

  // ----- Meaning -----

  /** What is left of a run: its trace, the number of scopes a skipped block left open, its status. */
  datatype State = State(trace: Trace, leaks: nat, status: Status) {
    function Emit(events: Trace): State {
      this.(trace := trace + events)
    }
  }

  datatype ChainResult = Passed(trace: Trace) | Skipped(trace: Trace) | Stopped(trace: Trace, status: Status)

  /** The expressions of a row from position k on, each fed with the output of the one before. In the
      header of a block (`guarded`) an error, an empty string or a false "if" skips the block; in a
      plain row an error ends the run. */
  function Chain(o: Oracle, row: Row, k: nat, guarded: bool, t: Trace, input: seq<Value>): ChainResult
    requires k <= |row|
    decreases |row| - k
  {
    if k == |row| then Passed(t)
    else
      var e := row[k];
      var r := o.Evaluate(t, e, input);
      var t' := t + Effects(e, input, r);
      if e.func.Send? && !r.err && r.out != [] then Chain(o, row, k + 1, guarded, t', input)
      else if e.func.Send? || e.func.SendSync? then
        Stopped(t', if r.err || r.out == [] then SendFailed else Suspended)
      else if e.func.Return? then Stopped(t', Returned)
      else if r.err && !guarded then Stopped(t', Status.Failed)
      else if r.err || (guarded && IsEmpty(r.out)) || (e.func.If? && IsFalse(r.out)) then Skipped(t')
      else Chain(o, row, k + 1, guarded, t', r.out)
  }

  const EndEvents: Trace := [Eval(EndExpr, [], Outcome([], false)), Pop]
  const ElseEvent: Event := Eval(ElseExpr, [], Outcome([], false))

  /** Closes the scope of a block whose body has run. */
  function Finish(s: State, events: Trace): State {
    if s.status.Running? then s.Emit(events) else s
  }

  function MeaningStmt(o: Oracle, s: Stmt, st: State): State
    requires WfStmt(s)
    decreases s, 0
  {
    match s
    case Line(row) =>
      (match Chain(o, row, 0, false, st.trace, [])
       case Passed(t) => st.(trace := t)
       case Skipped(t) => st.(trace := t)
       case Stopped(t, status) => st.(trace := t, status := status))
    case Guard(h, body) =>
      (match Chain(o, h, 0, true, st.trace + [Append], [])
       case Passed(t) => Finish(Meaning(o, body, st.(trace := t)), EndEvents)
       case Skipped(t) => st.(trace := t, leaks := st.leaks + 1)
       case Stopped(t, status) => st.(trace := t, status := status))
    case GuardElse(h, body, els) =>
      (match Chain(o, h, 0, true, st.trace + [Append], [])
       case Passed(t) => Finish(Meaning(o, body, st.(trace := t)), [ElseEvent] + EndEvents)
       case Skipped(t) => Finish(Meaning(o, els, st.(trace := t)), EndEvents)
       case Stopped(t, status) => st.(trace := t, status := status))
    case Loop(range, body) =>
      var t := st.trace + [Append];
      var t' := t + [Eval(range, [], o.Evaluate(t, range, []))];
      (match o.items(t, range, [])
       case None => st.(trace := t', leaks := st.leaks + 1)
       case Some(items) =>
         if items == [] then st.(trace := t' + EndEvents)
         else Iterate(o, range, body, items, 0, st.(trace := t')))
  }

  /** Binding an element of a range. */
  function Binds(range: Expr, item: Item): Trace
    requires |range.params| >= 3
  {
    [Bind(range.params[1], Str(item.key)), Bind(range.params[2], item.value)]
  }

  /** The body of a range for the elements from position k on, in a scope that is already open. */
  function Iterate(o: Oracle, range: Expr, body: Prog, items: seq<Item>, k: nat, st: State): State
    requires Wf(body) && |range.params| >= 3 && k < |items|
    decreases body, 1 + |items| - k
  {
    var bound := st.Emit(Binds(range, items[k]));
    var after := Finish(Meaning(o, body, bound), EndEvents);
    if !after.status.Running? || k + 1 == |items| then after
    else Iterate(o, range, body, items, k + 1, after.Emit([Append]))
  }

  function Meaning(o: Oracle, p: Prog, st: State): State
    requires Wf(p)
    decreases p, 0
  {
    match p
    case Nil => st
    case Cons(s, tail) =>
      var st' := MeaningStmt(o, s, st);
      if st'.status.Running? then Meaning(o, tail, st') else st'
  }

  // ----- Build links the flattened program as its structure says -----

  /** The jump table entries of a program whose first row has index `base`. */
  ghost predicate LinkedStmt(s: Stmt, base: nat, j: map<nat, nat>)
    decreases s
  {
    match s
    case Line(_) => base !in j
    case Guard(_, body) =>
      var end := base + 1 + |Flat(body)|;
      base in j && j[base] == end && end !in j && Linked(body, base + 1, j)
    case GuardElse(_, body, els) =>
      var mid := base + 1 + |Flat(body)|;
      var end := mid + 1 + |Flat(els)|;
      && base in j && j[base] == mid && Linked(body, base + 1, j)
      && mid in j && j[mid] == end && end !in j && Linked(els, mid + 1, j)
    case Loop(_, body) =>
      var end := base + 1 + |Flat(body)|;
      base in j && j[base] == end && end !in j && Linked(body, base + 1, j)
  }

  ghost predicate Linked(p: Prog, base: nat, j: map<nat, nat>)
    decreases p
  {
    p.Cons? ==> LinkedStmt(p.head, base, j) && Linked(p.tail, base + |FlatStmt(p.head)|, j)
  }

  /** Two tables agree on the rows lo..hi. */
  ghost predicate Agree(j: map<nat, nat>, j': map<nat, nat>, lo: nat, hi: nat) {
    forall k :: lo <= k < hi ==> (k in j <==> k in j') && (k in j ==> j[k] == j'[k])
  }

  lemma {:induction false} LinkedStmtFrame(s: Stmt, base: nat, j: map<nat, nat>, j': map<nat, nat>)
    requires LinkedStmt(s, base, j) && Agree(j, j', base, base + |FlatStmt(s)|)
    ensures LinkedStmt(s, base, j')
    decreases s
  {
    match s
    case Line(_) =>
    case Guard(_, body) => LinkedFrame(body, base + 1, j, j');
    case GuardElse(_, body, els) =>
      LinkedFrame(body, base + 1, j, j');
      LinkedFrame(els, base + 2 + |Flat(body)|, j, j');
    case Loop(_, body) => LinkedFrame(body, base + 1, j, j');
  }

  lemma {:induction false} LinkedFrame(p: Prog, base: nat, j: map<nat, nat>, j': map<nat, nat>)
    requires Linked(p, base, j) && Agree(j, j', base, base + |Flat(p)|)
    ensures Linked(p, base, j')
    decreases p
  {
    if p.Cons? {
      LinkedStmtFrame(p.head, base, j, j');
      LinkedFrame(p.tail, base + |FlatStmt(p.head)|, j, j');
    }
  }

  /** Nothing is recorded at or after row n. */
  ghost predicate Below(j: map<nat, nat>, n: nat) {
    forall k :: k in j ==> k < n
  }

  /** Linking the rows `seg` at `base` turned l into l': the stack is back, the table has changed for
      rows of the segment only. */
  ghost predicate Spans(seg: seq<Row>, base: nat, l: Links, l': Links) {
    && LinkAll(seg, base, l) == Built(l')
    && l'.stack == l.stack
    && Agree(l.jumps, l'.jumps, 0, base)
    && Below(l'.jumps, base + |seg|)
  }

  lemma LinkOne(row: Row, base: nat, l: Links)
    ensures LinkAll([row], base, l) == Link(row, base, l)
  {
  }

  lemma LinkNone(base: nat, l: Links)
    ensures LinkAll([], base, l) == Built(l)
  {
  }

  lemma LinkThen(a: seq<Row>, b: seq<Row>, base: nat, l: Links, l1: Links, l2: Links)
    requires LinkAll(a, base, l) == Built(l1) && LinkAll(b, base + |a|, l1) == Built(l2)
    ensures LinkAll(a + b, base, l) == Built(l2)
  {
    LinkAllConcat(a, b, base, l);
  }

  lemma {:induction false} HeaderOpens(h: Row)
    requires HeaderRow(h)
    ensures KindOf(h) == Opening
    decreases |h|
  {
    if !Opens(h[0].func) {
      var i :| 0 <= i < |h| && Opens(h[i].func);
      assert h[1..][i - 1] == h[i];
      HeaderOpens(h[1..]);
    }
  }

  lemma {:induction false} LineIsPlain(row: Row)
    requires PlainRow(row)
    ensures KindOf(row) == Plain
    decreases |row|
  {
    if row != [] {
      LineIsPlain(row[1..]);
    }
  }

  /** A row that opens a block, its body, and the row that ends that part of the block. */
  lemma {:induction false} LinkPart(open: Row, body: Prog, close: Row, base: nat, l: Links) returns (l': Links)
    requires KindOf(open) == Opening && Ends(close)
    requires Wf(body)
    requires Below(l.jumps, base)
    ensures var end := base + 1 + |Flat(body)|;
            && LinkAll([open] + Flat(body) + [close], base, l) == Built(l')
            && l'.stack == (if KindOf(close).Closing? then l.stack else l.stack + [end])
            && Agree(l.jumps, l'.jumps, 0, base) && Below(l'.jumps, end)
            && base in l'.jumps && l'.jumps[base] == end && Linked(body, base + 1, l'.jumps)
    decreases body, 1
  {
    hide LinkAll;
    var end := base + 1 + |Flat(body)|;
    var l1 := l.(stack := l.stack + [base]);
    LinkOne(open, base, l);
    var l2 := LinkProg(body, base + 1, l1);
    LinkThen([open], Flat(body), base, l, l1, l2);
    assert l2.stack[..|l.stack|] == l.stack;
    l' := Link(close, end, l2).links;
    LinkOne(close, end, l2);
    LinkThen([open] + Flat(body), [close], base, l, l2, l');
    LinkedFrame(body, base + 1, l2.jumps, l'.jumps);
  }

  /** The "else" part of a block, from the row after the "else" to the "end". */
  lemma {:induction false} LinkElse(els: Prog, mid: nat, l: Links, l1: Links, base: nat) returns (l': Links)
    requires Wf(els)
    requires base < mid && Below(l1.jumps, mid) && l1.stack == l.stack + [mid]
    requires Agree(l.jumps, l1.jumps, 0, base)
    ensures var end := mid + 1 + |Flat(els)|;
            && LinkAll(Flat(els) + [[EndExpr]], mid + 1, l1) == Built(l')
            && l'.stack == l.stack && Below(l'.jumps, end)
            && Agree(l.jumps, l'.jumps, 0, base) && Agree(l1.jumps, l'.jumps, base, mid)
            && mid in l'.jumps && l'.jumps[mid] == end && Linked(els, mid + 1, l'.jumps)
    decreases els, 1
  {
    hide LinkAll;
    var end := mid + 1 + |Flat(els)|;
    var l2 := LinkProg(els, mid + 1, l1);
    assert l2.stack[..|l.stack|] == l.stack;
    LinkOne([EndExpr], end, l2);
    l' := Link([EndExpr], end, l2).links;
    LinkThen(Flat(els), [[EndExpr]], mid + 1, l1, l2, l');
    LinkedFrame(els, mid + 1, l2.jumps, l'.jumps);
  }

  lemma {:induction false} LinkGuardElse(h: Row, body: Prog, els: Prog, base: nat, l: Links) returns (l': Links)
    requires KindOf(h) == Opening && Wf(body) && Wf(els) && Below(l.jumps, base)
    ensures Spans(FlatStmt(GuardElse(h, body, els)), base, l, l') && LinkedStmt(GuardElse(h, body, els), base, l'.jumps)
    decreases GuardElse(h, body, els), 0
  {
    hide LinkAll, Linked;
    var mid := base + 1 + |Flat(body)|;
    var first, rest := [h] + Flat(body) + [[ElseExpr]], Flat(els) + [[EndExpr]];
    var l1 := LinkPart(h, body, [ElseExpr], base, l);
    l' := LinkElse(els, mid, l, l1, base);
    LinkThen(first, rest, base, l, l1, l');
    assert first + rest == FlatStmt(GuardElse(h, body, els));
    LinkedFrame(body, base + 1, l1.jumps, l'.jumps);
  }

  lemma {:induction false} LinkStmt(s: Stmt, base: nat, l: Links) returns (l': Links)
    requires WfStmt(s) && Below(l.jumps, base)
    ensures Spans(FlatStmt(s), base, l, l') && LinkedStmt(s, base, l'.jumps)
    decreases s, 1
  {
    hide Linked, PlainRow, HeaderRow;
    match s
    case Line(row) =>
      LineIsPlain(row);
      LinkOne(row, base, l);
      l' := l;
    case Guard(h, body) =>
      HeaderOpens(h);
      l' := LinkPart(h, body, [EndExpr], base, l);
    case GuardElse(h, body, els) =>
      HeaderOpens(h);
      l' := LinkGuardElse(h, body, els, base, l);
    case Loop(range, body) =>
      l' := LinkPart([range], body, [EndExpr], base, l);
  }

  lemma AgreeTrans(j: map<nat, nat>, j1: map<nat, nat>, j2: map<nat, nat>, lo: nat, mid: nat, hi: nat)
    requires lo <= mid <= hi && Agree(j, j1, lo, mid) && Agree(j1, j2, lo, hi)
    ensures Agree(j, j2, lo, mid) && Agree(j1, j2, mid, hi)
  {
  }

  lemma {:induction false} LinkProg(p: Prog, base: nat, l: Links) returns (l': Links)
    requires Wf(p)
    requires Below(l.jumps, base)
    ensures Spans(Flat(p), base, l, l') && Linked(p, base, l'.jumps)
    decreases p, 0
  {
    hide LinkAll, Agree, Below, LinkedStmt;
    match p
    case Nil =>
      LinkNone(base, l);
      AgreeRefl(l.jumps, base);
      l' := l;
    case Cons(s, tail) =>
      var mid := base + |FlatStmt(s)|;
      var l1 := LinkStmt(s, base, l);
      l' := LinkProg(tail, mid, l1);
      LinkThen(FlatStmt(s), Flat(tail), base, l, l1, l');
      AgreeTrans(l.jumps, l1.jumps, l'.jumps, 0, base, mid);
      LinkedStmtFrame(s, base, l1.jumps, l'.jumps);
  }

  lemma AgreeRefl(j: map<nat, nat>, n: nat)
    ensures Agree(j, j, 0, n)
  {
  }

  /** Build accepts every flattened program, closes every block and records the jumps its structure
      calls for. */
  lemma BuildLinksProgram(p: Prog)
    requires Wf(p)
    ensures var b := LinkAll(Flat(p), 0, NoLinks);
            b.Built? && b.links.stack == [] && Linked(p, 0, b.links.jumps)
  {
    var l' := LinkProg(p, 0, NoLinks);
  }
}
