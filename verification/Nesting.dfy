/**
  Ranges inside ranges: exactly which programs the machine runs right, whatever expressions return.

  A range that ends inside another one is mistaken for that one. If it had elements, the machine goes on
  with the next element of the outer range at once; if it had none, the machine forgets the outer range
  and never gives it another element. So a program is run right by every oracle if and only if it is
  Sound. For the other direction an oracle leads the run to an inner range and there lets it go wrong.
 */
module Nesting {
  import opened Common
  import opened Template
  import opened Runtime
  import opened Structured
  import opened Reach
  import opened Simulation

  // ----- What an oracle has to do -----

  /** What a run is led to: a range that will be left too early or restarted; in its body, a range with
      an element that runs to its end or to a still deeper one; such a deeper one, over nothing; or a
      range over nothing from which the body of the outer one runs to its end. */
  datatype Goal = ToOuter | ToInner | ToDeep | ToDrop

  /** The statement runs to its end and every range in it fails. */
  ghost predicate PassesStmt(o: Oracle, s: Stmt, st: State)
    requires WfStmt(s)
  {
    var st' := MeaningStmt(o, s, st);
    st'.status.Running? && FailsOn(o, |st.trace|, |st'.trace|)
  }

  ghost predicate Passes(o: Oracle, p: Prog, st: State)
    requires Wf(p)
  {
    var st' := Meaning(o, p, st);
    st'.status.Running? && FailsOn(o, |st.trace|, |st'.trace|)
  }

  /** The state after a range's header has been evaluated. */
  function AfterRange(o: Oracle, range: Expr, st: State): State {
    var t := st.trace + [Append];
    st.(trace := t + [Eval(range, [], o.Evaluate(t, range, []))])
  }

  function ItemsOf(o: Oracle, range: Expr, st: State): Option<seq<Item>> {
    o.items(st.trace + [Append], range, [])
  }

  ghost predicate LeadsStmt(o: Oracle, goal: Goal, s: Stmt, st: State)
    requires WfStmt(s)
    decreases s
  {
    match s
    case Line(_) => false
    case Guard(h, body) =>
      var r := Chain(o, h, 0, true, st.trace + [Append], []);
      r.Passed? && Leads(o, goal, body, st.(trace := r.trace))
    case GuardElse(h, body, els) =>
      var r := Chain(o, h, 0, true, st.trace + [Append], []);
      || (r.Passed? && Leads(o, goal, body, st.(trace := r.trace)))
      || (r.Skipped? && Leads(o, goal, els, st.(trace := r.trace)))
    case Loop(range, body) =>
      var items := ItemsOf(o, range, st);
      items.Some? &&
      if items.value == [] then goal.ToDeep? || goal.ToDrop?
      else
        var bound := AfterRange(o, range, st).Emit(Binds(range, items.value[0]));
        match goal
        case ToOuter => |items.value| >= 2 && (Leads(o, ToInner, body, bound) || Leads(o, ToDrop, body, bound))
        case ToInner => |items.value| == 1 && (Passes(o, body, bound) || Leads(o, ToDeep, body, bound))
        case _ => false
  }

  ghost predicate Leads(o: Oracle, goal: Goal, p: Prog, st: State)
    requires Wf(p)
    decreases p
  {
    p.Cons? &&
    var st1 := MeaningStmt(o, p.head, st);
    || (LeadsStmt(o, goal, p.head, st) && (goal.ToDrop? ==> st1.status.Running? && Passes(o, p.tail, st1)))
    || (PassesStmt(o, p.head, st) && Leads(o, goal, p.tail, st1))
  }

  // ----- The machine follows to the range -----

  /** After n rows from m the machine is before a range at row lo, in state st0, its ranges as before;
      the structure goes on from that range to st'. */
  ghost predicate Arrives(c: Image, goal: Goal, m: Machine, n: nat, range: Expr, body: Prog, lo: nat, st0: State, st': State)
    requires m.Ok()
  {
    var s := Loop(range, body);
    && c.Go(m, n) == m.(idx := lo, trace := st0.trace) && st0.status.Running?
    && WfStmt(s) && LinkedStmt(s, lo, c.jumps) && Holds(c, lo, FlatStmt(s)) && Away(m, lo, lo + |FlatStmt(s)|)
    && LeadsStmt(c.o, goal, s, st0)
    && Follows(MeaningStmt(c.o, s, st0), st')
  }

  lemma ArrivesLater(c: Image, goal: Goal, m: Machine, a: nat, m1: Machine, n: nat,
                     range: Expr, body: Prog, lo: nat, st0: State, st1: State, st': State)
    requires m.Ok() && m1 == c.Go(m, a) && m1 == m.(idx := m1.idx, trace := m1.trace)
    requires Arrives(c, goal, m1, n, range, body, lo, st0, st1) && Follows(st1, st')
    ensures Arrives(c, goal, m, a + n, range, body, lo, st0, st')
  {
    hide Run, LeadsStmt, Holds, LinkedStmt, WfStmt, MeaningStmt;
    GoThen(c, m, a, n);
    FollowsTrans(MeaningStmt(c.o, Loop(range, body), st0), st1, st');
  }

  lemma {:induction false} PathStmt(c: Image, goal: Goal, s: Stmt, base: nat, m: Machine, st: State)
    returns (n: nat, range: Expr, inner: Prog, lo: nat, st0: State)
    requires WfStmt(s) && LinkedStmt(s, base, c.jumps) && Ready(c, m, base, FlatStmt(s), Failing)
    requires st.trace == m.trace && st.status.Running? && LeadsStmt(c.o, goal, s, st)
    ensures Arrives(c, goal, m, n, range, inner, lo, st0, MeaningStmt(c.o, s, st))
    decreases s
  {
    hide Run, StepRow, Chain, Holds, Meaning, Leads, Linked, Wf, HeaderRow, Iterate;
    match s
    case Guard(h, body) =>
      LayoutBlock(c, h, body, base);
      HeaderRuns(c, m, base);
      n, range, inner, lo, st0 := PathPart(c, goal, body, base + 1, [EndExpr], m, st, EndEvents);
    case GuardElse(h, body, els) =>
      LayoutElse(c, h, Flat(body), Flat(els), base);
      HeaderRuns(c, m, base);
      if Chain(c.o, h, 0, true, m.trace + [Append], []).Passed? {
        n, range, inner, lo, st0 := PathPart(c, goal, body, base + 1, [ElseExpr], m, st, [ElseEvent] + EndEvents);
      } else {
        n, range, inner, lo, st0 := PathPart(c, goal, els, base + 2 + |Flat(body)|, [EndExpr], m, st, EndEvents);
      }
    case Loop(r, body) =>
      n, range, inner, lo, st0 := 0, r, body, base, st;
      GoZero(c, m);
  }

  /** The part of a block that its header row has led to. */
  lemma {:induction false} PathPart(c: Image, goal: Goal, part: Prog, start: nat, close: Row, m: Machine, st: State, events: Trace)
    returns (n: nat, range: Expr, inner: Prog, lo: nat, st0: State)
    requires m.Ok() && Live(c.rows, m) && Wf(part) && Linked(part, start, c.jumps)
    requires var m1 := StepRow(c.o, c.rows, c.jumps, m);
             && m1 == m.(idx := start, trace := m1.trace) && st.status.Running?
             && Ready(c, m1, start, Flat(part) + [close], Failing) && Leads(c.o, goal, part, st.(trace := m1.trace))
    requires events != [] && !events[0].Pop?
    ensures var st1 := st.(trace := StepRow(c.o, c.rows, c.jumps, m).trace);
            Arrives(c, goal, m, n, range, inner, lo, st0, Finish(Meaning(c.o, part, st1), events))
    decreases part, 1
  {
    hide Run, StepRow, Holds, Meaning, Leads, Linked, Wf, Arrives;
    GoOne(c, m);
    var m1 := c.Go(m, 1);
    var st1 := st.(trace := m1.trace);
    HoldsSplit(c, start, Flat(part), [close]);
    n, range, inner, lo, st0 := PathProg(c, goal, part, start, m1, st1);
    FinishFollows(Meaning(c.o, part, st1), events);
    ArrivesLater(c, goal, m, 1, m1, n, range, inner, lo, st0, Meaning(c.o, part, st1), Finish(Meaning(c.o, part, st1), events));
    n := 1 + n;
  }

  lemma {:induction false} PathProg(c: Image, goal: Goal, p: Prog, base: nat, m: Machine, st: State)
    returns (n: nat, range: Expr, inner: Prog, lo: nat, st0: State)
    requires Wf(p) && Linked(p, base, c.jumps) && Ready(c, m, base, Flat(p), Failing)
    requires st.trace == m.trace && st.status.Running? && Leads(c.o, goal, p, st)
    ensures Arrives(c, goal, m, n, range, inner, lo, st0, Meaning(c.o, p, st))
    decreases p, 0
  {
    hide Run, Holds, MeaningStmt, LeadsStmt, LinkedStmt, WfStmt, SoundStmt, Arrives;
    var s, tail := p.head, p.tail;
    var mid := base + |FlatStmt(s)|;
    HoldsSplit(c, base, FlatStmt(s), Flat(tail));
    var st1 := MeaningStmt(c.o, s, st);
    StmtFollows(c.o, s, st);
    if st1.status.Running? { MeaningFollows(c.o, tail, st1); }
    if LeadsStmt(c.o, goal, s, st) {
      n, range, inner, lo, st0 := PathStmt(c, goal, s, base, m, st);
      GoZero(c, m);
      ArrivesLater(c, goal, m, 0, m, n, range, inner, lo, st0, st1, Meaning(c.o, p, st));
    } else {
      FailingIsSound(s);
      var a := SimStmt(c, s, base, m, st, Failing);
      var m1 := c.Go(m, a);
      n, range, inner, lo, st0 := PathProg(c, goal, tail, mid, m1, st1);
      ArrivesLater(c, goal, m, a, m1, n, range, inner, lo, st0, Meaning(c.o, tail, st1), Meaning(c.o, p, st));
      n := a + n;
    }
  }

  lemma {:induction false} FailingIsSound(s: Stmt)
    ensures SoundStmt(s, Failing)
    decreases s
  {
    match s
    case Line(_) =>
    case Guard(_, body) => FailingProg(body);
    case GuardElse(_, body, els) => FailingProg(body); FailingProg(els);
    case Loop(_, _) =>
  }

  lemma {:induction false} FailingProg(p: Prog)
    ensures Sound(p, Failing)
    decreases p
  {
    if p.Cons? {
      FailingIsSound(p.head);
      FailingProg(p.tail);
    }
  }

  // ----- Restarting the outer range -----

  /** The "end" row of a range that is over, with two ranges on the stack of which the lower one has
      elements left: that one goes on. */
  lemma EndRestarts(c: Image, m: Machine, end: nat, n: nat)
    requires Before(m, end) && end < |c.rows| && c.rows[end] == [EndExpr]
    requires m.current == Some(n) && m.cells[n].end == end && m.cells[n].index == |m.cells[n].items|
    requires |m.rangeStack| >= 2
    requires var w := m.cells[m.rangeStack[|m.rangeStack| - 2]]; w.index < |w.items| && w.start >= 0
    ensures var o := m.rangeStack[|m.rangeStack| - 2];
            var w := m.cells[o];
            StepRow(c.o, c.rows, c.jumps, m) ==
            m.(trace := m.trace + EndEvents + [Pop, Append] +
                        [Bind(w.keyVar, Str(w.items[w.index].key)), Bind(w.valueVar, w.items[w.index].value)],
               idx := w.start + 1, cells := m.cells[o := w.(index := w.index + 1)],
               current := Some(o), rangeStack := m.rangeStack[..|m.rangeStack| - 1])
  {
    hide StepExprs;
    OneExpr(c, m, EndExpr);
    assert m.trace + [Eval(EndExpr, [], Outcome([], false))] + [Pop] == m.trace + EndEvents;
  }

  /** After n rows from m the machine has closed a scope where the structure, in state st0, does
      something else on its way to st'. */
  ghost predicate Strays(c: Image, m: Machine, n: nat, st0: State, st': State)
    requires m.Ok()
  {
    st0.status.Running? && st0.trace + [Pop] <= c.Go(m, n).trace && Follows(st0, st')
  }

  lemma StraysLater(c: Image, m: Machine, a: nat, m1: Machine, n: nat, st0: State, st1: State, st': State)
    requires m.Ok() && m1 == c.Go(m, a) && Strays(c, m1, n, st0, st1) && Follows(st1, st')
    ensures Strays(c, m, a + n, st0, st')
  {
    GoThen(c, m, a, n);
    FollowsTrans(st0, st1, st');
  }

  /** A range is under way, with elements left, on top of the stack or right below the top. */
  ghost predicate HasMore(m: Machine, below: nat)
    requires m.Ok()
  {
    below < |m.rangeStack| && var w := m.cells[m.rangeStack[|m.rangeStack| - 1 - below]]; w.index < |w.items| && w.start >= 0
  }

  /** A range over nothing, two ranges deep. */
  lemma EmptyStrays(c: Image, range: Expr, body: Prog, lo: nat, m: Machine, st: State)
    requires var s := Loop(range, body); WfStmt(s) && LinkedStmt(s, lo, c.jumps) && Holds(c, lo, FlatStmt(s))
    requires Before(m, lo) && HasMore(m, 1) && st.trace == m.trace && st.status.Running?
    requires ItemsOf(c.o, range, st) == Some([])
    ensures var st' := MeaningStmt(c.o, Loop(range, body), st); Strays(c, m, 2, st', st')
  {
    hide Run, StepRow, Meaning, Iterate, Holds, Wf, Linked;
    var end := lo + 1 + |Flat(body)|;
    LayoutBlock(c, [range], body, lo);
    RangeRuns(c, m, lo, range, end);
    GoOne(c, m);
    var m1 := c.Go(m, 1);
    EndRestarts(c, m1, end, |m.cells|);
    GoOne(c, m1);
    GoThen(c, m, 1, 1);
  }

  /** A body that runs to its end, in a range inside a range with elements left. */
  lemma EndStrays(c: Image, body: Prog, lo: nat, m: Machine, st: State, cell: nat) returns (n: nat)
    requires Wf(body) && Linked(body, lo, c.jumps) && Ready(c, m, lo, Flat(body), Failing) && Passes(c.o, body, st)
    requires lo + |Flat(body)| < |c.rows| && c.rows[lo + |Flat(body)|] == [EndExpr]
    requires m.current == Some(cell) && var v := m.cells[cell]; v.end == lo + |Flat(body)| && v.index == |v.items|
    requires HasMore(m, 1) && st.trace == m.trace && st.status.Running?
    ensures var st' := Finish(Meaning(c.o, body, st), EndEvents); Strays(c, m, n, st', st')
  {
    hide Run, StepRow, Meaning, Holds, Wf, Linked, Sound;
    FailingProg(body);
    var a := SimProg(c, body, lo, m, st, Failing);
    var m1 := c.Go(m, a);
    var st' := Finish(Meaning(c.o, body, st), EndEvents);
    EndRestarts(c, m1, lo + |Flat(body)|, cell);
    GoOne(c, m1);
    StraysLater(c, m, a, m1, 1, st', st', st');
    n := a + 1;
  }

  /** A body that is led to a still deeper range. */
  lemma DeepStrays(c: Image, body: Prog, lo: nat, m: Machine, st: State) returns (n: nat, st0: State)
    requires Wf(body) && Linked(body, lo, c.jumps) && Ready(c, m, lo, Flat(body), Failing) && Leads(c.o, ToDeep, body, st)
    requires HasMore(m, 1) && st.trace == m.trace && st.status.Running?
    ensures Strays(c, m, n, st0, Meaning(c.o, body, st))
  {
    hide Run, Meaning, Holds, Wf, Linked, Leads, LeadsStmt, MeaningStmt;
    var a, range, inner, lo3, st3 := PathProg(c, ToDeep, body, lo, m, st);
    DeepItems(c.o, range, inner, st3);
    EmptyStrays(c, range, inner, lo3, c.Go(m, a), st3);
    st0 := MeaningStmt(c.o, Loop(range, inner), st3);
    StraysLater(c, m, a, c.Go(m, a), 2, st0, st0, Meaning(c.o, body, st));
    n := a + 2;
  }

  /** A range inside a range with elements left. */
  lemma InnerStrays(c: Image, range: Expr, body: Prog, lo: nat, m: Machine, st: State) returns (n: nat, st0: State)
    requires var s := Loop(range, body);
             && WfStmt(s) && LinkedStmt(s, lo, c.jumps) && Holds(c, lo, FlatStmt(s)) && LeadsStmt(c.o, ToInner, s, st)
    requires Before(m, lo) && HasMore(m, 0) && st.trace == m.trace && st.status.Running?
    ensures Strays(c, m, n, st0, MeaningStmt(c.o, Loop(range, body), st))
  {
    hide Run, StepRow, Meaning, Holds, Wf, Linked, Leads, LeadsStmt, MeaningStmt, Strays, Passes;
    var end := lo + 1 + |Flat(body)|;
    var item := InnerItem(c.o, range, body, st);
    LayoutBlock(c, [range], body, lo);
    RangeRuns(c, m, lo, range, end);
    GoOne(c, m);
    var m1 := c.Go(m, 1);
    var bound := AfterRange(c.o, range, st).Emit(Binds(range, item));
    HoldsSplit(c, lo + 1, Flat(body), [[EndExpr]]);
    OneElement(c.o, range, body, st, item);
    var st' := MeaningStmt(c.o, Loop(range, body), st);
    FinishFollows(Meaning(c.o, body, bound), EndEvents);
    if Passes(c.o, body, bound) {
      st0 := st';
      n := EndStrays(c, body, lo + 1, m1, bound, |m.cells|);
      StraysLater(c, m, 1, m1, n, st0, st0, st');
    } else {
      n, st0 := DeepStrays(c, body, lo + 1, m1, bound);
      StraysLater(c, m, 1, m1, n, st0, Meaning(c.o, body, bound), st');
    }
    n := 1 + n;
  }

  lemma InnerItem(o: Oracle, range: Expr, body: Prog, st: State) returns (item: Item)
    requires WfStmt(Loop(range, body)) && LeadsStmt(o, ToInner, Loop(range, body), st)
    ensures ItemsOf(o, range, st) == Some([item])
    ensures var bound := AfterRange(o, range, st).Emit(Binds(range, item));
            Passes(o, body, bound) || Leads(o, ToDeep, body, bound)
  {
    hide Leads, Passes;
    item := ItemsOf(o, range, st).value[0];
    assert ItemsOf(o, range, st).value == [item];
  }

  lemma OneElement(o: Oracle, range: Expr, body: Prog, st: State, item: Item)
    requires WfStmt(Loop(range, body)) && ItemsOf(o, range, st) == Some([item])
    ensures MeaningStmt(o, Loop(range, body), st) ==
            Finish(Meaning(o, body, AfterRange(o, range, st).Emit(Binds(range, item))), EndEvents)
  {
    hide Meaning;
    assert Iterate(o, range, body, [item], 0, AfterRange(o, range, st)) ==
           Finish(Meaning(o, body, AfterRange(o, range, st).Emit(Binds(range, [item][0]))), EndEvents);
  }

  lemma DeepItems(o: Oracle, range: Expr, body: Prog, st: State)
    requires WfStmt(Loop(range, body)) && LeadsStmt(o, ToDeep, Loop(range, body), st)
    ensures ItemsOf(o, range, st) == Some([])
  {
  }

  // ----- Forgetting the outer range -----

  /** What follows a part that has left no range under way, as long as it leaves the ranges alone. */
  lemma LeavesThen(c: Image, m: Machine, a: nat, st1: State, mid: nat, b: nat, st': State, hi: nat)
    requires m.Ok() && Leaves(c, m, a, st1, mid) && st1.status.Running? && mid <= hi
    requires Reaches(c, c.Go(m, a), b, st', hi, true) && st'.status.Running?
    ensures Leaves(c, m, a + b, st', hi)
  {
    GoThen(c, m, a, b);
  }

  lemma {:induction false} DropStmt(c: Image, s: Stmt, base: nat, m: Machine, st: State) returns (n: nat)
    requires WfStmt(s) && LinkedStmt(s, base, c.jumps) && Ready(c, m, base, FlatStmt(s), Inside(true))
    requires st.trace == m.trace && st.status.Running?
    requires LeadsStmt(c.o, ToDrop, s, st) && MeaningStmt(c.o, s, st).status.Running?
    ensures Leaves(c, m, n, MeaningStmt(c.o, s, st), base + |FlatStmt(s)|)
    decreases s
  {
    hide Run, StepRow, Chain, Holds, Meaning, Leads, Linked, Wf, HeaderRow, Iterate, Leaves;
    match s
    case Guard(h, body) =>
      LayoutBlock(c, h, body, base);
      HeaderRuns(c, m, base);
      GoOne(c, m);
      HoldsSplit(c, base + 1, Flat(body), [[EndExpr]]);
      n := DropPart(c, body, base + 1, c.Go(m, 1), st.(trace := c.Go(m, 1).trace));
      LeavesLater(c, m, n, MeaningStmt(c.o, s, st), base + |FlatStmt(s)|);
      n := 1 + n;
    case GuardElse(h, body, els) =>
      n := DropElse(c, h, body, els, base, m, st);
    case Loop(range, body) =>
      DropLoop(c, range, body, base, m, st);
      n := 2;
  }

  lemma LeavesLater(c: Image, m: Machine, n: nat, st: State, hi: nat)
    requires m.Ok() && Leaves(c, c.Go(m, 1), n, st, hi)
    ensures Leaves(c, m, 1 + n, st, hi)
  {
    GoThen(c, m, 1, n);
  }

  lemma {:induction false} DropElse(c: Image, h: Row, body: Prog, els: Prog, base: nat, m: Machine, st: State) returns (n: nat)
    requires var s := GuardElse(h, body, els);
             && WfStmt(s) && LinkedStmt(s, base, c.jumps) && Ready(c, m, base, FlatStmt(s), Inside(true))
             && LeadsStmt(c.o, ToDrop, s, st) && MeaningStmt(c.o, s, st).status.Running?
    requires st.trace == m.trace && st.status.Running?
    ensures var s := GuardElse(h, body, els); Leaves(c, m, n, MeaningStmt(c.o, s, st), base + |FlatStmt(s)|)
    decreases GuardElse(h, body, els), 0
  {
    hide Run, StepRow, Chain, Holds, Meaning, Leads, Linked, Wf, HeaderRow, Leaves;
    LayoutElse(c, h, Flat(body), Flat(els), base);
    HeaderRuns(c, m, base);
    GoOne(c, m);
    var m1 := c.Go(m, 1);
    var st1 := st.(trace := m1.trace);
    var mid := base + 1 + |Flat(body)|;
    var end := mid + 1 + |Flat(els)|;
    if Chain(c.o, h, 0, true, m.trace + [Append], []).Passed? {
      n := DropBody(c, body, base + 1, end, m1, st1);
    } else {
      HoldsSplit(c, mid + 1, Flat(els), [[EndExpr]]);
      n := DropPart(c, els, mid + 1, m1, st1);
    }
    LeavesLater(c, m, n, MeaningStmt(c.o, GuardElse(h, body, els), st), end + 1);
    n := 1 + n;
  }

  lemma DropLoop(c: Image, range: Expr, body: Prog, base: nat, m: Machine, st: State)
    requires var s := Loop(range, body);
             WfStmt(s) && LinkedStmt(s, base, c.jumps) && Ready(c, m, base, FlatStmt(s), Inside(true)) && LeadsStmt(c.o, ToDrop, s, st)
    requires st.trace == m.trace && st.status.Running?
    ensures var s := Loop(range, body); Leaves(c, m, 2, MeaningStmt(c.o, s, st), base + |FlatStmt(s)|)
  {
    hide Run, StepRow, Holds, Meaning, Leads, Linked, Wf, Iterate;
    var end := base + 1 + |Flat(body)|;
    LayoutBlock(c, [range], body, base);
    RangeRuns(c, m, base, range, end);
    GoOne(c, m);
    EndRunsLast(c, c.Go(m, 1), end, |m.cells|);
    GoOne(c, c.Go(m, 1));
    GoThen(c, m, 1, 1);
  }

  /** The body of a block and the "end" row behind it. */
  lemma {:induction false} DropPart(c: Image, body: Prog, lo: nat, m: Machine, st: State) returns (n: nat)
    requires Wf(body) && Linked(body, lo, c.jumps) && Ready(c, m, lo, Flat(body), Inside(true))
    requires Holds(c, lo, Flat(body) + [[EndExpr]]) && st.trace == m.trace && st.status.Running?
    requires Leads(c.o, ToDrop, body, st) && Meaning(c.o, body, st).status.Running?
    ensures Leaves(c, m, n, Finish(Meaning(c.o, body, st), EndEvents), lo + |Flat(body)| + 1)
    decreases body, 1
  {
    hide Run, StepRow, Holds, Meaning, Leads, Linked, Wf;
    var end := lo + |Flat(body)|;
    HoldsSplit(c, lo, Flat(body), [[EndExpr]]);
    HoldsRow(c, end, [EndExpr]);
    var a := DropProg(c, body, lo, m, st);
    var st1 := Meaning(c.o, body, st);
    EndRuns(c, c.Go(m, a), end);
    ReachesStep(c, c.Go(m, a), end, Finish(st1, EndEvents), end + 1, true);
    LeavesThen(c, m, a, st1, end, 1, Finish(st1, EndEvents), end + 1);
    n := a + 1;
  }

  /** The body of a block with an "else", the "else" row and the "end" row. */
  lemma {:induction false} DropBody(c: Image, body: Prog, lo: nat, end: nat, m: Machine, st: State) returns (n: nat)
    requires Wf(body) && Linked(body, lo, c.jumps) && Ready(c, m, lo, Flat(body) + [[ElseExpr]], Inside(true))
    requires var mid := lo + |Flat(body)|; mid < end && mid in c.jumps && c.jumps[mid] == end
    requires end < |c.rows| && c.rows[end] == [EndExpr]
    requires st.trace == m.trace && st.status.Running?
    requires Leads(c.o, ToDrop, body, st) && Meaning(c.o, body, st).status.Running?
    ensures Leaves(c, m, n, Finish(Meaning(c.o, body, st), [ElseEvent] + EndEvents), end + 1)
    decreases body, 1
  {
    hide Run, StepRow, Holds, Meaning, Leads, Linked, Wf;
    var mid := lo + |Flat(body)|;
    HoldsSplit(c, lo, Flat(body), [[ElseExpr]]);
    HoldsRow(c, mid, [ElseExpr]);
    var a := DropProg(c, body, lo, m, st);
    var st1 := Meaning(c.o, body, st);
    var st2 := Finish(st1, [ElseEvent] + EndEvents);
    ElseThenEnd(c, c.Go(m, a), mid, end, st2, true);
    LeavesThen(c, m, a, st1, mid, 2, st2, end + 1);
    n := a + 2;
  }

  lemma {:induction false} DropProg(c: Image, p: Prog, base: nat, m: Machine, st: State) returns (n: nat)
    requires Wf(p) && Linked(p, base, c.jumps) && Ready(c, m, base, Flat(p), Inside(true))
    requires st.trace == m.trace && st.status.Running?
    requires Leads(c.o, ToDrop, p, st) && Meaning(c.o, p, st).status.Running?
    ensures Leaves(c, m, n, Meaning(c.o, p, st), base + |Flat(p)|)
    decreases p, 0
  {
    hide Run, Holds, MeaningStmt, LeadsStmt, LinkedStmt, WfStmt, SoundStmt;
    var s, tail := p.head, p.tail;
    var mid := base + |FlatStmt(s)|;
    HoldsSplit(c, base, FlatStmt(s), Flat(tail));
    var st1 := MeaningStmt(c.o, s, st);
    if PassesStmt(c.o, s, st) && Leads(c.o, ToDrop, tail, st1) {
      FailingIsSound(s);
      var a := SimStmt(c, s, base, m, st, Failing);
      n := DropProg(c, tail, mid, c.Go(m, a), st1);
      GoThen(c, m, a, n);
      n := a + n;
    } else {
      var a := DropStmt(c, s, base, m, st);
      FailingProg(tail);
      var b := SimProg(c, tail, mid, c.Go(m, a), st1, Failing);
      LeavesThen(c, m, a, st1, mid, b, Meaning(c.o, tail, st1), mid + |Flat(tail)|);
      n := a + b;
    }
  }

  // ----- A machine that has gone wrong stays wrong -----

  /** However long the machine runs from m, it never stops having done everything in t. */
  ghost predicate Misses(c: Image, m: Machine, t: Trace)
    requires m.Ok()
  {
    forall n: nat :: !Live(c.rows, c.Go(m, n)) ==> !(t <= c.Go(m, n).trace)
  }

  lemma MissesLater(c: Image, m: Machine, a: nat, t: Trace, t': Trace)
    requires m.Ok() && Misses(c, c.Go(m, a), t) && t <= t'
    ensures Misses(c, m, t')
  {
    hide Run;
    forall n: nat | !Live(c.rows, c.Go(m, n))
      ensures !(t' <= c.Go(m, n).trace)
    {
      if n >= a {
        GoThen(c, m, a, n - a);
      } else {
        GoThen(c, m, n, a - n);
        GoStopped(c, c.Go(m, n), a - n);
        GoZero(c, c.Go(m, a));
      }
    }
  }

  lemma GoStopped(c: Image, m: Machine, n: nat)
    requires m.Ok() && !Live(c.rows, m)
    ensures c.Go(m, n) == m
  {
  }

  lemma {:induction false} ExprsGrow(o: Oracle, jumps: map<nat, nat>, m: Machine, row: Row, k: nat)
    requires m.Ok() && k <= |row|
    ensures m.trace <= StepExprs(o, jumps, m, row, k).trace
    ensures k < |row| ==> var t := StepExprs(o, jumps, m, row, k).trace; |m.trace| < |t| && t[|m.trace|].Eval?
    ensures k == |row| ==> StepExprs(o, jumps, m, row, k) == m
    decreases |row| - k
  {
    if k < |row| {
      ExprGrows(o, jumps, m, row[k]);
      var f := StepExpr(o, jumps, m, row[k]);
      hide StepExpr;
      if !f.leave {
        ExprsGrow(o, jumps, f.m, row, k + 1);
      }
    }
  }

  lemma ExprGrows(o: Oracle, jumps: map<nat, nat>, m: Machine, e: Expr)
    requires m.Ok()
    ensures var t := StepExpr(o, jumps, m, e).m.trace; m.trace <= t && |m.trace| < |t| && t[|m.trace|].Eval?
  {
    hide EndBlock, StartRange;
    var r := o.Evaluate(m.trace, e, m.input);
    var m1 := m.Emit(Effects(e, m.input, r));
    assert m.trace <= m1.trace && m1.trace[|m.trace|] == Eval(e, m.input, r);
    EndBlockGrows(m1);
    StartRangeGrows(jumps, m1, e, o.Elements(m.trace, e, m.input));
    assert m1.trace <= StepExpr(o, jumps, m, e).m.trace;
  }

  lemma EndBlockGrows(m: Machine)
    requires m.Ok()
    ensures m.trace <= EndBlock(m).trace
  {
  }

  lemma StartRangeGrows(jumps: map<nat, nat>, m: Machine, e: Expr, items: seq<Item>)
    requires m.Ok()
    ensures m.trace <= StartRange(jumps, m, e, items).trace
  {
  }

  /** A row does nothing, or first evaluates an expression, in a scope it may have opened. */
  lemma RowGrows(c: Image, m: Machine)
    requires m.Ok() && Live(c.rows, m)
    ensures var t := StepRow(c.o, c.rows, c.jumps, m).trace;
            && m.trace <= t
            && (|m.trace| < |t| ==> t[|m.trace|].Eval? || (|m.trace| + 1 < |t| && t[|m.trace| + 1].Eval?))
  {
    hide StepExprs;
    var row := c.rows[m.idx];
    var m1 := if HasOpen(row) then m.Emit([Append]) else m;
    ExprsGrow(c.o, c.jumps, m1, row, 0);
  }

  lemma {:induction false} GoGrows(c: Image, m: Machine, n: nat)
    requires m.Ok()
    ensures m.trace <= c.Go(m, n).trace
    decreases n
  {
    hide StepRow;
    if n > 0 && Live(c.rows, m) {
      RowGrows(c, m);
      GoGrows(c, StepRow(c.o, c.rows, c.jumps, m), n - 1);
    }
  }

  /** Between two rows no scope is opened to bind an element. */
  lemma {:induction false} NoNextElement(c: Image, m: Machine, b: Event, n: nat)
    requires m.Ok() && b.Bind?
    ensures !(m.trace + [Append, b] <= c.Go(m, n).trace)
    decreases n
  {
    hide StepRow;
    if n > 0 && Live(c.rows, m) {
      RowGrows(c, m);
      var m1 := StepRow(c.o, c.rows, c.jumps, m);
      GoGrows(c, m1, n - 1);
      if m1.trace == m.trace {
        NoNextElement(c, m1, b, n - 1);
      } else {
        var t, i := c.Go(m, n).trace, |m.trace|;
        assert t[i] == m1.trace[i] && (i + 1 < |m1.trace| ==> t[i + 1] == m1.trace[i + 1]);
        assert (m.trace + [Append, b])[i] == Append && (m.trace + [Append, b])[i + 1] == b;
      }
    }
  }

  lemma StrayMisses(c: Image, m: Machine, n: nat, st0: State, st': State)
    requires m.Ok() && Strays(c, m, n, st0, st') && |st0.trace| < |st'.trace|
    ensures Misses(c, m, st'.trace)
  {
    hide Run;
    var i := |st0.trace|;
    forall k: nat | !Live(c.rows, c.Go(m, k))
      ensures !(st'.trace <= c.Go(m, k).trace)
    {
      if k >= n {
        GoThen(c, m, n, k - n);
        GoGrows(c, c.Go(m, n), k - n);
      } else {
        GoThen(c, m, k, n - k);
        GoStopped(c, c.Go(m, k), n - k);
      }
      assert c.Go(m, k).trace[i] == (st0.trace + [Pop])[i];
    }
  }

  lemma {:induction false} DropRuns(o: Oracle, p: Prog, st: State)
    requires Wf(p) && Leads(o, ToDrop, p, st)
    ensures Meaning(o, p, st).status.Running?
    decreases p
  {
    hide LeadsStmt, MeaningStmt;
    var st1 := MeaningStmt(o, p.head, st);
    if PassesStmt(o, p.head, st) && Leads(o, ToDrop, p.tail, st1) {
      DropRuns(o, p.tail, st1);
    }
  }

  /** The machine in the first iteration of a range with more elements. */
  ghost predicate Begun(c: Image, range: Expr, body: Prog, items: seq<Item>, lo: nat, m: Machine, st: State) {
    && WfStmt(Loop(range, body)) && Linked(body, lo + 1, c.jumps) && Holds(c, lo + 1, Flat(body) + [[EndExpr]])
    && |items| >= 2 && m.cells != [] && InRange(m, [], |m.cells| - 1, range, items, lo, lo + 1 + |Flat(body)|, 0)
    && st.status.Running? && m.trace == st.trace + Binds(range, items[0])
  }

  lemma RestartMisses(c: Image, range: Expr, body: Prog, items: seq<Item>, lo: nat, m: Machine, st: State)
    requires Begun(c, range, body, items, lo, m, st) && Leads(c.o, ToInner, body, st.(trace := m.trace))
    ensures Misses(c, m, Iterate(c.o, range, body, items, 0, st).trace)
  {
    hide Run, Meaning, MeaningStmt, Holds, Linked, Leads, LeadsStmt, Wf, Misses;
    var bound := st.(trace := m.trace);
    HoldsSplit(c, lo + 1, Flat(body), [[EndExpr]]);
    var a, range2, body2, lo2, st2 := PathProg(c, ToInner, body, lo + 1, m, bound);
    var m2 := c.Go(m, a);
    var b, st0 := InnerStrays(c, range2, body2, lo2, m2, st2);
    var inner := Meaning(c.o, body, bound);
    StraysLater(c, m, a, m2, b, st0, MeaningStmt(c.o, Loop(range2, body2), st2), inner);
    var after := Finish(inner, EndEvents);
    FinishFollows(inner, EndEvents);
    GoZero(c, m);
    StraysLater(c, m, 0, m, a + b, st0, inner, after);
    StrayMisses(c, m, a + b, st0, after);
    if after.status.Running? {
      IterateFollows(c.o, range, body, items, 1, after.Emit([Append]));
    }
    MissesLater(c, m, 0, after.trace, Iterate(c.o, range, body, items, 0, st).trace);
  }

  lemma DropMisses(c: Image, range: Expr, body: Prog, items: seq<Item>, lo: nat, m: Machine, st: State)
    requires Begun(c, range, body, items, lo, m, st) && Leads(c.o, ToDrop, body, st.(trace := m.trace))
    ensures Misses(c, m, Iterate(c.o, range, body, items, 0, st).trace)
  {
    hide Run, StepRow, Meaning, Holds, Linked, Leads, Wf;
    var bound := st.(trace := m.trace);
    var end := lo + 1 + |Flat(body)|;
    DropRuns(c.o, body, bound);
    HoldsSplit(c, lo + 1, Flat(body), [[EndExpr]]);
    var a := DropPart(c, body, lo + 1, m, bound);
    var after := Finish(Meaning(c.o, body, bound), EndEvents);
    var m1 := c.Go(m, a);
    var t := Iterate(c.o, range, body, items, 0, st).trace;
    IterateFollows(c.o, range, body, items, 1, after.Emit([Append]));
    var b := Binds(range, items[1])[0];
    assert m1.trace + [Append, b] <= after.Emit([Append]).trace + Binds(range, items[1]);
    forall n: nat | !Live(c.rows, c.Go(m1, n))
      ensures !(t <= c.Go(m1, n).trace)
    {
      NoNextElement(c, m1, b, n);
    }
    MissesLater(c, m, a, t, t);
  }

  /** A range that is led to, where no range is under way. */
  lemma OuterMisses(c: Image, range: Expr, body: Prog, lo: nat, m: Machine, st: State)
    requires var s := Loop(range, body);
             && WfStmt(s) && LinkedStmt(s, lo, c.jumps) && Holds(c, lo, FlatStmt(s)) && LeadsStmt(c.o, ToOuter, s, st)
    requires Before(m, lo) && m.rangeStack == [] && st.trace == m.trace && st.status.Running?
    ensures Misses(c, m, MeaningStmt(c.o, Loop(range, body), st).trace)
  {
    hide Run, StepRow, Meaning, Iterate, Holds, Linked, Leads, Wf, Misses;
    var items := ItemsOf(c.o, range, st).value;
    LayoutBlock(c, [range], body, lo);
    RangeRuns(c, m, lo, range, lo + 1 + |Flat(body)|);
    GoOne(c, m);
    var m1 := c.Go(m, 1);
    var st1 := AfterRange(c.o, range, st);
    assert m1.trace == st1.trace + Binds(range, items[0]);
    assert Begun(c, range, body, items, lo, m1, st1);
    if Leads(c.o, ToInner, body, st1.(trace := m1.trace)) {
      RestartMisses(c, range, body, items, lo, m1, st1);
    } else {
      DropMisses(c, range, body, items, lo, m1, st1);
    }
    var t := MeaningStmt(c.o, Loop(range, body), st).trace;
    MissesLater(c, m, 1, t, t);
  }

  lemma LedAstray(o: Oracle, p: Prog)
    requires Wf(p) && Leads(o, ToOuter, p, State([], 0, Running))
    ensures Misses(Image(o, Flat(p), Table(p)), Start, Meaning(o, p, State([], 0, Running)).trace)
  {
    hide Run, Meaning, Linked, Leads, LeadsStmt, LinkAll, Misses, MeaningStmt;
    BuildLinksProgram(p);
    var c := Image(o, Flat(p), Table(p));
    var st := State([], 0, Running);
    assert c.rows[0..0 + |Flat(p)|] == Flat(p);
    var n, range, body, lo, st0 := PathProg(c, ToOuter, p, 0, Start, st);
    OuterMisses(c, range, body, lo, c.Go(Start, n), st0);
    MissesLater(c, Start, n, MeaningStmt(o, Loop(range, body), st0).trace, Meaning(o, p, st).trace);
  }
}
