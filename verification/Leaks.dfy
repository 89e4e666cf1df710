/**
  The scopes that runs of the machine leave open, and which runs can end.
 */
module Leaks {
  import opened Common
  import opened Template
  import opened Runtime
  import opened Structured
  import opened Reach
  import opened Simulation
  import opened Nesting
  import opened Endings
  import opened Scopes
  import opened Exactness

  // ----- Scopes of rows -----

  lemma OpenEnd(t: Trace)
    ensures Open(t + EndEvents) == Open(t) - 1 && Open(t + ([ElseEvent] + EndEvents)) == Open(t) - 1
    ensures Open(t + [Append]) == Open(t) + 1
  {
    EndNet(t);
    OwnApart(t, EndEvents);
    OwnApart(t, [ElseEvent] + EndEvents);
    OwnApart(t, [Append]);
  }

  lemma ChainOpen(o: Oracle, row: Row, guarded: bool, t: Trace)
    ensures var r := Chain(o, row, 0, guarded, t, []);
            && (r.Passed? && !HasOwn(row, 0) ==> Open(r.trace) == Open(t))
            && (r.Skipped? && !CanSkipOwn(row, 0) ==> Open(r.trace) == Open(t))
  {
    hide Open, Own, Chain;
    ChainNet(o, row, 0, guarded, t, []);
    ChainOwn(o, row, 0, guarded, t, []);
  }

  // ----- A run that ends normally, statement by statement -----

  /** After k rows from m the machine is at row hi with no range under way. */
  ghost predicate Arrived(c: Image, m: Machine, k: nat, n: nat, hi: nat)
    requires m.Ok()
  {
    k <= n && Before(c.Go(m, k), hi) && Idle(c.Go(m, k), hi)
  }

  /** The machine is at row lo with no range under way, on its way to a normal end. */
  ghost predicate OnItsWay(c: Image, m: Machine, n: nat, lo: nat) {
    WellNested(c.jumps) && Before(m, lo) && Idle(m, lo) && EndsWell(c, m, n)
  }

  lemma ArrivedThen(c: Image, m: Machine, a: nat, n: nat, mid: nat, b: nat, hi: nat)
    requires m.Ok() && Arrived(c, m, a, n, mid) && Arrived(c, c.Go(m, a), b, n - a, hi)
    ensures Arrived(c, m, a + b, n, hi) && c.Go(m, a + b) == c.Go(c.Go(m, a), b)
  {
    GoThen(c, m, a, b);
  }

  /** One row that leaves the ranges alone. */
  lemma ArrivedOne(c: Image, m: Machine, n: nat, lo: nat, hi: nat)
    requires OnItsWay(c, m, n, lo) && lo < |c.rows| && lo < hi
    requires var r := StepRow(c.o, c.rows, c.jumps, m); r.status.Running? ==> r == m.(idx := hi, trace := r.trace)
    ensures Arrived(c, m, 1, n, hi) && c.Go(m, 1) == StepRow(c.o, c.rows, c.jumps, m)
    ensures OnItsWay(c, c.Go(m, 1), n - 1, hi)
  {
    hide StepRow, Run, WellNested;
    EndsLater(c, m, n);
  }

  lemma {:induction false} PassStmt(c: Image, s: Stmt, base: nat, m: Machine, n: nat) returns (k: nat)
    requires WfStmt(s) && LinkedStmt(s, base, c.jumps) && Holds(c, base, FlatStmt(s)) && OnItsWay(c, m, n, base)
    ensures Arrived(c, m, k, n, base + |FlatStmt(s)|) && CanFinishStmt(s)
    ensures !LeakyStmt(s) ==> Open(c.Go(m, k).trace) == Open(m.trace)
    decreases s, 1
  {
    hide Run, StepRow, Chain, Holds, WellNested, Linked, Wf, HeaderRow, Open;
    match s
    case Line(row) =>
      HoldsRow(c, base, row);
      LineRuns(c, m, base);
      EndsLater(c, m, n);
      ArrivedOne(c, m, n, base, base + 1);
      ChainCan(c.o, row, 0, false, m.trace, []);
      ChainOpen(c.o, row, false, m.trace);
      PlainOwn(row, 0);
      k := 1;
    case Guard(h, body) =>
      LayoutBlock(c, h, body, base);
      k := PassGuard(c, h, body, base, m, n);
    case GuardElse(h, body, els) =>
      k := PassElse(c, h, body, els, base, m, n);
    case Loop(range, body) =>
      k := LoopLeft(c, range, body, base, m, n);
  }

  lemma {:induction false} PassGuard(c: Image, h: Row, body: Prog, base: nat, m: Machine, n: nat) returns (k: nat)
    requires var s := Guard(h, body);
             WfStmt(s) && LinkedStmt(s, base, c.jumps) && Holds(c, base, FlatStmt(s)) && OnItsWay(c, m, n, base)
    ensures Arrived(c, m, k, n, base + |FlatStmt(Guard(h, body))|) && CanFinishStmt(Guard(h, body))
    ensures !LeakyStmt(Guard(h, body)) ==> Open(c.Go(m, k).trace) == Open(m.trace)
    decreases body, 2
  {
    hide Run, StepRow, Chain, Holds, WellNested, Linked, Wf, HeaderRow, Open;
    LayoutBlock(c, h, body, base);
    HeaderRuns(c, m, base);
    EndsLater(c, m, n);
    var t := m.trace + [Append];
    ChainCan(c.o, h, 0, true, t, []);
    ChainOpen(c.o, h, true, t);
    OpenEnd(m.trace);
    if Chain(c.o, h, 0, true, t, []).Passed? {
      ArrivedOne(c, m, n, base, base + 1);
      var b := PassPart(c, body, base + 1, c.Go(m, 1), n - 1);
      ArrivedThen(c, m, 1, n, base + 1, b, base + 2 + |Flat(body)|);
      assert LeakyPart(h, body) <== Leaky(body) || HasOwn(h, 0);
      k := 1 + b;
    } else {
      ArrivedOne(c, m, n, base, base + 2 + |Flat(body)|);
      k := 1;
    }
  }

  /** A part of a block and the "end" row behind it. */
  lemma {:induction false} PassPart(c: Image, body: Prog, lo: nat, m: Machine, n: nat) returns (k: nat)
    requires Wf(body) && Linked(body, lo, c.jumps) && Holds(c, lo, Flat(body) + [[EndExpr]]) && OnItsWay(c, m, n, lo)
    ensures Arrived(c, m, k, n, lo + |Flat(body)| + 1) && CanFinish(body)
    ensures !Leaky(body) ==> Open(c.Go(m, k).trace) == Open(m.trace) - 1
    decreases body, 1
  {
    hide Run, StepRow, Holds, WellNested, Linked, Wf, Open;
    var end := lo + |Flat(body)|;
    HoldsSplit(c, lo, Flat(body), [[EndExpr]]);
    HoldsRow(c, end, [EndExpr]);
    var a := PassProg(c, body, lo, m, n);
    EndsThen(c, m, n, a);
    var m1 := c.Go(m, a);
    EndRuns(c, m1, end);
    ArrivedOne(c, m1, n - a, end, end + 1);
    ArrivedThen(c, m, a, n, end, 1, end + 1);
    OpenEnd(m1.trace);
    k := a + 1;
  }

  /** The body of a block with an "else", the "else" row and the "end" row. */
  lemma {:induction false} PassBody(c: Image, body: Prog, lo: nat, end: nat, m: Machine, n: nat) returns (k: nat)
    requires Wf(body) && Linked(body, lo, c.jumps) && Holds(c, lo, Flat(body) + [[ElseExpr]]) && OnItsWay(c, m, n, lo)
    requires var mid := lo + |Flat(body)|; mid < end && mid in c.jumps && c.jumps[mid] == end
    requires end < |c.rows| && c.rows[end] == [EndExpr]
    ensures Arrived(c, m, k, n, end + 1) && CanFinish(body)
    ensures !Leaky(body) ==> Open(c.Go(m, k).trace) == Open(m.trace) - 1
    decreases body, 1
  {
    hide Run, StepRow, Holds, WellNested, Linked, Wf, Open;
    var mid := lo + |Flat(body)|;
    HoldsSplit(c, lo, Flat(body), [[ElseExpr]]);
    HoldsRow(c, mid, [ElseExpr]);
    var a := PassProg(c, body, lo, m, n);
    EndsThen(c, m, n, a);
    var b := ElseToEnd(c, c.Go(m, a), n - a, mid, end);
    ArrivedThen(c, m, a, n, mid, b, end + 1);
    k := a + b;
  }

  /** The "else" row behind a body that has run, and the "end" row that it jumps to. */
  lemma ElseToEnd(c: Image, m: Machine, n: nat, mid: nat, end: nat) returns (k: nat)
    requires OnItsWay(c, m, n, mid) && mid < |c.rows| && c.rows[mid] == [ElseExpr] && mid in c.jumps && c.jumps[mid] == end
    requires mid < end < |c.rows| && c.rows[end] == [EndExpr]
    ensures Arrived(c, m, k, n, end + 1) && Open(c.Go(m, k).trace) == Open(m.trace) - 1
  {
    hide Run, StepRow, WellNested, Open;
    ElseRuns(c, m, mid);
    ArrivedOne(c, m, n, mid, end);
    var m1 := c.Go(m, 1);
    EndRuns(c, m1, end);
    ArrivedOne(c, m1, n - 1, end, end + 1);
    ArrivedThen(c, m, 1, n, end, 1, end + 1);
    OpenEnd(m.trace);
    assert m.trace + [ElseEvent] + EndEvents == m.trace + ([ElseEvent] + EndEvents);
    k := 2;
  }

  lemma {:induction false} PassElse(c: Image, h: Row, body: Prog, els: Prog, base: nat, m: Machine, n: nat) returns (k: nat)
    requires var s := GuardElse(h, body, els);
             WfStmt(s) && LinkedStmt(s, base, c.jumps) && Holds(c, base, FlatStmt(s)) && OnItsWay(c, m, n, base)
    ensures var s := GuardElse(h, body, els);
            && Arrived(c, m, k, n, base + |FlatStmt(s)|) && CanFinishStmt(s)
            && (!LeakyStmt(s) ==> Open(c.Go(m, k).trace) == Open(m.trace))
    decreases GuardElse(h, body, els), 0
  {
    hide Run, StepRow, Chain, Holds, WellNested, Linked, Wf, HeaderRow, Open;
    var mid := base + 1 + |Flat(body)|;
    var end := mid + 1 + |Flat(els)|;
    LayoutElse(c, h, Flat(body), Flat(els), base);
    HeaderRuns(c, m, base);
    EndsLater(c, m, n);
    var t := m.trace + [Append];
    ChainCan(c.o, h, 0, true, t, []);
    ChainOpen(c.o, h, true, t);
    OpenEnd(m.trace);
    if Chain(c.o, h, 0, true, t, []).Passed? {
      ArrivedOne(c, m, n, base, base + 1);
      var b := PassBody(c, body, base + 1, end, c.Go(m, 1), n - 1);
      ArrivedThen(c, m, 1, n, base + 1, b, end + 1);
      assert LeakyPart(h, body) <== Leaky(body) || HasOwn(h, 0);
      k := 1 + b;
    } else {
      ArrivedOne(c, m, n, base, mid + 1);
      var b := PassPart(c, els, mid + 1, c.Go(m, 1), n - 1);
      ArrivedThen(c, m, 1, n, mid + 1, b, end + 1);
      k := 1 + b;
    }
  }

  lemma {:induction false} PassProg(c: Image, p: Prog, base: nat, m: Machine, n: nat) returns (k: nat)
    requires Wf(p) && Linked(p, base, c.jumps) && Holds(c, base, Flat(p)) && OnItsWay(c, m, n, base)
    ensures Arrived(c, m, k, n, base + |Flat(p)|) && CanFinish(p)
    ensures !Leaky(p) ==> Open(c.Go(m, k).trace) == Open(m.trace)
    decreases p, 0
  {
    hide Run, Holds, WellNested, LinkedStmt, WfStmt, LeakyStmt, CanFinishStmt, Open;
    match p
    case Nil =>
      GoZero(c, m);
      k := 0;
    case Cons(s, tail) =>
      var mid := base + |FlatStmt(s)|;
      HoldsSplit(c, base, FlatStmt(s), Flat(tail));
      var a := PassStmt(c, s, base, m, n);
      EndsThen(c, m, n, a);
      var b := PassProg(c, tail, mid, c.Go(m, a), n - a);
      ArrivedThen(c, m, a, n, mid, b, mid + |Flat(tail)|);
      k := a + b;
  }

  // ----- What the rows tell of all runs -----

  /** Under the oracle, the template runs for n rows, ends normally, and leaves this many scopes open. */
  ghost predicate EndsOpen(o: Oracle, p: Prog, n: nat, open: int) {
    var r := Run(o, Flat(p), Table(p), Start, n);
    !Live(Flat(p), r) && r.status.Running? && Open(r.trace) == open
  }

  lemma Loaded(o: Oracle, p: Prog) returns (c: Image)
    requires Wf(p)
    ensures c == Image(o, Flat(p), Table(p)) && Linked(p, 0, c.jumps) && Holds(c, 0, Flat(p)) && WellNested(c.jumps)
  {
    hide LinkAll, Linked, WellNested;
    BuildLinksProgram(p);
    StartsNested();
    LinkAllKeepsOk(Flat(p), 0, NoLinks);
    OkIsNested(LinkAll(Flat(p), 0, NoLinks).links, |Flat(p)|);
    c := Image(o, Flat(p), Table(p));
    assert c.rows[0..0 + |Flat(p)|] == Flat(p);
  }

  lemma StartsNested()
    ensures LinksOk(NoLinks, 0)
  {
  }

  /** Where every range fails, the machine ends as the interpreter does, whatever the program. */
  lemma BarrenRun(o: Oracle, p: Prog) returns (n: nat)
    requires Wf(p) && Barren(o) && Meaning(o, p, State([], 0, Running)).status.Running?
    ensures EndsOpen(o, p, n, Open(Meaning(o, p, State([], 0, Running)).trace))
  {
    hide Run, Meaning, Linked, Holds, Open, WellNested, Table;
    var c := Loaded(o, p);
    FailingProg(p);
    n := SimProg(c, p, 0, Start, State([], 0, Running), Failing);
  }

  /** A run that ends normally: the program can finish, and a scope is left open only if it is leaky. */
  lemma EndedRun(o: Oracle, p: Prog, n: nat, open: int)
    requires Wf(p) && EndsOpen(o, p, n, open)
    ensures CanFinish(p) && (open != 0 ==> Leaky(p))
  {
    hide Run, Linked, Holds, Open, WellNested, Table;
    var c := Loaded(o, p);
    var k := PassProg(c, p, 0, Start, n);
    GoThen(c, Start, k, n - k);
    GoStopped(c, c.Go(Start, k), n - k);
    assert Open([]) == 0 by { NothingOpen(); }
  }

  lemma NothingOpen()
    ensures Open([]) == 0
  {
  }

  /** The rows tell whether some run of the machine ends normally. */
  lemma CanFinishIff(p: Prog)
    requires Wf(p)
    ensures CanFinish(p) <==> exists o, n, open :: EndsOpen(o, p, n, open)
  {
    hide EndsOpen, Meaning;
    var st := State([], 0, Running);
    if CanFinish(p) {
      var o := MeaningFinishes(p, st);
      var n := BarrenRun(o, p);
      assert EndsOpen(o, p, n, Open(Meaning(o, p, st).trace));
    }
    if o, n, open :| EndsOpen(o, p, n, open) {
      EndedRun(o, p, n, open);
    }
  }

  /** The rows tell whether some run of the machine ends normally with a scope left open. */
  lemma LeaksIff(p: Prog)
    requires Wf(p)
    ensures Leaky(p) <==> exists o, n, open :: EndsOpen(o, p, n, open) && open != 0
  {
    hide EndsOpen, Meaning, Open;
    var st := State([], 0, Running);
    if Leaky(p) {
      var o := LeakProg(p, st);
      var n := BarrenRun(o, p);
      ScopeBalance(o, p, st);
      NothingOpen();
      OwnNothing();
      assert EndsOpen(o, p, n, Open(Meaning(o, p, st).trace));
    }
    if o, n, open :| EndsOpen(o, p, n, open) && open != 0 {
      EndedRun(o, p, n, open);
    }
  }

  /** A Sound program leaves open what its skipped blocks, failed ranges and formless "if"s have left open,
      and nothing else. */
  lemma ScopesOfRun(o: Oracle, p: Prog)
    requires Wf(p) && Sound(p, Outside)
    ensures var meaning := Meaning(o, p, State([], 0, Running));
            exists n: nat ::
              var r := Run(o, Flat(p), Table(p), Start, n);
              && !Live(Flat(p), r) && r.trace == meaning.trace && r.status == meaning.status
              && (r.status.Running? ==> Open(r.trace) == meaning.leaks + Own(r.trace))
  {
    hide Run, Meaning, Table, Sound, LinkAll;
    CompilerCorrect(o, p);
    ScopeBalance(o, p, State([], 0, Running));
    NothingOpen();
    OwnNothing();
  }

  // ----- Instances -----

  lemma BlockIsSound(h: Row)
    ensures Sound(OneBlock(h), Outside)
  {
    assert Sound(Nil, Outside);
  }

  lemma RightEnd(o: Oracle, p: Prog) returns (n: nat)
    requires Wf(p) && RunsRight(o, p) && Meaning(o, p, State([], 0, Running)).status.Running?
    ensures EndsOpen(o, p, n, Open(Meaning(o, p, State([], 0, Running)).trace))
  {
    hide Run, Meaning, Table, Open;
    n :| var r := Run(o, Flat(p), Table(p), Start, n);
         !Live(Flat(p), r) && r.trace == Meaning(o, p, State([], 0, Running)).trace &&
         r.status == Meaning(o, p, State([], 0, Running)).status;
  }

  /** A block that is skipped keeps its scope. */
  lemma SkippedBlockLeaks() returns (n: nat)
    ensures Wf(OneBlock(Condition)) && EndsOpen(AllFalse, OneBlock(Condition), n, 1)
  {
    hide RunsRight, Meaning, EndsOpen, Sound;
    SkippedBlockMeans();
    BlockIsSound(Condition);
    CompilerCorrect(AllFalse, OneBlock(Condition));
    n := RightEnd(AllFalse, OneBlock(Condition));
  }

  /** An "if" with two parameters of which the first is not "ne" opens two scopes, and its block, which is
      not skipped, closes one. */
  lemma FormlessIfLeaks() returns (n: nat)
    ensures Wf(OneBlock(NoCondition)) && EndsOpen(PassAll, OneBlock(NoCondition), n, 1)
  {
    hide RunsRight, Meaning, EndsOpen, Sound;
    FormlessIfMeans();
    BlockIsSound(NoCondition);
    CompilerCorrect(PassAll, OneBlock(NoCondition));
    n := RightEnd(PassAll, OneBlock(NoCondition));
  }

  // ----- A restart that leaves a scope open -----

  /** A range inside an "if" inside a range. */
  const Deep := Cons(Loop(Outer, Cons(Guard(Condition, Cons(InnerLoop, Nil)), Nil)), Nil)

  const DeepRows: seq<Row> := [[Outer], Condition, [Inner], [EndExpr], [EndExpr], [EndExpr]]

  lemma DeepLinks()
    ensures Wf(Deep) && Flat(Deep) == DeepRows
    ensures var j := Table(Deep); 0 in j && j[0] == 5 && 1 in j && j[1] == 4 && 2 in j && j[2] == 3
  {
    hide LinkAll, Table;
    var inner := Cons(InnerLoop, Nil);
    var body := Cons(Guard(Condition, inner), Nil);
    assert Opens(Condition[0].func) && HeaderRow(Condition);
    assert WfStmt(InnerLoop) && Wf(inner) && Wf(body);
    NilFlat();
    assert Flat(inner) == [[Inner], [EndExpr]];
    assert Flat(body) == [Condition, [Inner], [EndExpr], [EndExpr]];
    BuildLinksProgram(Deep);
    TableOf(Deep);
    var j := Table(Deep);
    assert Linked(Deep, 0, j) && LinkedStmt(Loop(Outer, body), 0, j);
    assert Linked(body, 1, j) && LinkedStmt(Guard(Condition, inner), 1, j);
    assert Linked(inner, 2, j) && LinkedStmt(InnerLoop, 2, j);
  }

  /** Nothing has failed, no "if" was false, and none opened a scope of its own. */
  ghost predicate Smooth(t: Trace) {
    forall e :: e in t && e.Eval? ==> !e.outcome.err && !IsFalse(e.outcome.out) && !IsEmpty(e.outcome.out) && !Formless(e.expr)
  }

  lemma SmoothConcat(t: Trace, events: Trace)
    requires Smooth(t) && Smooth(events)
    ensures Smooth(t + events)
  {
  }

  lemma SmoothRange(t: Trace, range: Expr, item: Item)
    requires Smooth(t) && range.func.Range? && |range.params| >= 3
    ensures Smooth(t + [Append] + [Eval(range, [], Outcome([Other(0)], false))] + Binds(range, item))
  {
  }

  /** The machine before a row, with so many scopes open and these ranges under way. */
  ghost predicate Stands(m: Machine, idx: nat, open: int, cells: seq<RangeValue>, stack: seq<nat>) {
    && Before(m, idx) && Smooth(m.trace) && Open(m.trace) == open && m.cells == cells && m.rangeStack == stack
    && m.current == (if stack == [] then None else Some(stack[|stack| - 1]))
  }

  /** Row 1: the "if" is passed. */
  lemma DeepIf(c: Image, m: Machine, open: int, cells: seq<RangeValue>, stack: seq<nat>)
    requires c == Image(Around(OneItem), DeepRows, Table(Deep)) && Stands(m, 1, open, cells, stack)
    ensures Stands(c.Go(m, 1), 2, open + 1, cells, stack)
  {
    hide Run, StepRow, Table, Open, Chain, Smooth;
    DeepLinks();
    var t, e, r := m.trace + [Append], Condition[0], Outcome([Other(0)], false);
    assert Opens(e.func) && HeaderRow(Condition);
    HeaderRuns(c, m, 1);
    OneChain(c.o, e, t);
    ChainOpen(c.o, Condition, true, t);
    OpenEnd(m.trace);
    SmoothIf(m.trace, e, r);
    GoOne(c, m);
  }

  lemma SmoothIf(t: Trace, e: Expr, r: Outcome)
    requires Smooth(t) && !Formless(e) && r == Outcome([Other(0)], false)
    ensures Smooth(t + [Append] + Effects(e, [], r))
  {
  }

  /** Rows 1 and 2: the "if" is passed and the inner range bound. */
  lemma DeepInner(c: Image, m: Machine, open: int, cells: seq<RangeValue>, stack: seq<nat>)
    requires c == Image(Around(OneItem), DeepRows, Table(Deep)) && Stands(m, 1, open, cells, stack)
    ensures Stands(c.Go(m, 2), 3, open + 2, cells + [Cell(Inner, OneItem, 2, 3, 1)], stack + [|cells|])
  {
    hide Run, StepRow, Table, Open, Smooth;
    DeepLinks();
    DeepIf(c, m, open, cells, stack);
    var m1 := c.Go(m, 1);
    RangeRuns(c, m1, 2, Inner, 3);
    OpenRange(m1.trace, Inner, Outcome([Other(0)], false), OneItem[0]);
    SmoothRange(m1.trace, Inner, OneItem[0]);
    GoOne(c, m1);
    GoThen(c, m, 1, 1);
  }

  lemma OpenRange(t: Trace, range: Expr, r: Outcome, item: Item)
    requires range.func.Range? && |range.params| >= 3
    ensures Open(t + [Append] + [Eval(range, [], r)] + Binds(range, item)) == Open(t) + 1
  {
    OpenEnd(t);
    var t1 := t + [Append];
    var ev := Eval(range, [], r);
    CountsTwo(ev, ev);
    CountsConcat(t1, [ev]);
    CountsTwo(Binds(range, item)[0], Binds(range, item)[1]);
    CountsConcat(t1 + [ev], Binds(range, item));
  }

  /** The rows of the first iteration, up to the end of the inner range. */
  lemma DeepFirst(c: Image)
    requires c == Image(Around(OneItem), DeepRows, Table(Deep))
    ensures Stands(c.Go(Start, 3), 3, 3, [Cell(Outer, TwoItems, 0, 5, 1), Cell(Inner, OneItem, 2, 3, 1)], [0, 1])
  {
    hide Run, StepRow, Table, Open, Smooth;
    DeepLinks();
    NothingOpen();
    assert Smooth([]) by { SmoothNothing(); }
    RangeRuns(c, Start, 0, Outer, 5);
    OpenRange([], Outer, Outcome([Other(0)], false), TwoItems[0]);
    SmoothRange([], Outer, TwoItems[0]);
    GoOne(c, Start);
    var v, w := Cell(Outer, TwoItems, 0, 5, 1), Cell(Inner, OneItem, 2, 3, 1);
    assert [] + [v] == [v] && [] + [0] == [0] && [v] + [w] == [v, w] && [0] + [1] == [0, 1];
    DeepInner(c, c.Go(Start, 1), 1, [v], [0]);
    GoThen(c, Start, 1, 2);
  }

  lemma SmoothNothing()
    ensures Smooth([]) && Smooth(EndEvents)
  {
  }

  /** The "end" row of the inner range restarts the outer one. */
  lemma DeepRestart(c: Image, m: Machine)
    requires c == Image(Around(OneItem), DeepRows, Table(Deep))
    requires Stands(m, 3, 3, [Cell(Outer, TwoItems, 0, 5, 1), Cell(Inner, OneItem, 2, 3, 1)], [0, 1])
    ensures Stands(c.Go(m, 1), 1, 2, [Cell(Outer, TwoItems, 0, 5, 2), Cell(Inner, OneItem, 2, 3, 1)], [0])
  {
    hide Run, StepRow, Table, Open, Smooth;
    DeepLinks();
    EndRestarts(c, m, 3, 1);
    var binds := Binds(Outer, TwoItems[1]);
    OpenRestart(m.trace, binds);
    SmoothRestart(m.trace, binds);
    GoOne(c, m);
    var v, w := Cell(Outer, TwoItems, 0, 5, 1), Cell(Inner, OneItem, 2, 3, 1);
    assert [v, w][0 := v.(index := 2)] == [Cell(Outer, TwoItems, 0, 5, 2), w] && [0, 1][..1] == [0];
  }

  lemma SmoothRestart(t: Trace, binds: Trace)
    requires Smooth(t) && |binds| == 2 && binds[0].Bind? && binds[1].Bind?
    ensures Smooth(t + EndEvents + [Pop, Append] + binds)
  {
  }

  lemma OpenRestart(t: Trace, binds: Trace)
    requires |binds| == 2 && binds[0].Bind? && binds[1].Bind?
    ensures Open(t + EndEvents + [Pop, Append] + binds) == Open(t) - 1
  {
    OpenEnd(t);
    CountsTwo(Pop, Append);
    CountsTwo(binds[0], binds[1]);
    assert binds == [binds[0], binds[1]];
    CountsConcat(t + EndEvents, [Pop, Append]);
    CountsConcat(t + EndEvents + [Pop, Append], binds);
  }

  /** The second iteration, to the end. */
  lemma DeepSecond(c: Image, m: Machine)
    requires c == Image(Around(OneItem), DeepRows, Table(Deep))
    requires Stands(m, 1, 2, [Cell(Outer, TwoItems, 0, 5, 2), Cell(Inner, OneItem, 2, 3, 1)], [0])
    ensures var r := c.Go(m, 5); r.idx == 6 && r.status.Running? && Open(r.trace) == 1 && Smooth(r.trace)
  {
    hide Run, StepRow, Table, Open, Smooth;
    DeepLinks();
    SmoothNothing();
    DeepInner(c, m, 2, m.cells, [0]);
    var m2 := c.Go(m, 2);
    EndReturns(c, m2, 3, 2);
    OpenEnd(m2.trace);
    SmoothConcat(m2.trace, EndEvents);
    GoOne(c, m2);
    var m3 := c.Go(m2, 1);
    EndRuns(c, m3, 4);
    OpenEnd(m3.trace);
    SmoothConcat(m3.trace, EndEvents);
    GoOne(c, m3);
    var m4 := c.Go(m3, 1);
    EndRunsLast(c, m4, 5, 0);
    OpenEnd(m4.trace);
    SmoothConcat(m4.trace, EndEvents);
    GoOne(c, m4);
    GoThen(c, m, 2, 1);
    GoThen(c, m, 3, 1);
    GoThen(c, m, 4, 1);
  }

  /** The inner range, when it ends, closes the scope of the "if" instead of that of the outer range's
      first iteration. Nothing fails and nothing is skipped, and one scope stays open. */
  lemma RestartLeaks()
    ensures Wf(Deep) && EndsOpen(Around(OneItem), Deep, 9, 1)
    ensures Smooth(Run(Around(OneItem), Flat(Deep), Table(Deep), Start, 9).trace)
  {
    hide Run, Table, Open, Flat, Smooth;
    DeepLinks();
    var c := Image(Around(OneItem), DeepRows, Table(Deep));
    DeepFirst(c);
    DeepRestart(c, c.Go(Start, 3));
    DeepSecond(c, c.Go(c.Go(Start, 3), 1));
    GoThen(c, Start, 3, 1);
    GoThen(c, Start, 4, 5);
  }
}
