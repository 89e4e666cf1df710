/**
  The machine runs a built template exactly as the structure of its program says.
 */
module Simulation {
  import opened Common
  import opened Template
  import opened Runtime
  import opened Structured
  import opened Reach

  // ----- Programs that the machine runs right -----

  /** Where a part of a program lies: outside of ranges; in the body of a range, where what follows up to
      the end of that body can finish or cannot; in the body of a range inside a range; or anywhere, as
      long as every range fails. */
  datatype Level = Outside | Inside(ends: bool) | Deeper | Failing

  /** The level of a statement that `tail` follows. */
  function Then(level: Level, tail: Prog): Level {
    if level.Inside? then Inside(level.ends && CanFinish(tail)) else level
  }

  predicate SoundStmt(s: Stmt, level: Level) {
    match s
    case Line(_) => true
    case Guard(h, body) => CanPass(h, 0) ==> Sound(body, level)
    case GuardElse(h, body, els) => (CanPass(h, 0) ==> Sound(body, level)) && (CanSkip(h, 0) ==> Sound(els, level))
    case Loop(_, body) =>
      match level
      case Outside => Sound(body, Inside(true))
      case Inside(ends) => !ends && !CanFinish(body) && Sound(body, Deeper)
      case Deeper => false
      case Failing => true
  }

  /** In the part of the program that runs can reach no range lies inside another one, unless neither
      its body nor what follows it in the body of the other one can finish. */
  predicate Sound(p: Prog, level: Level) {
    p.Cons? ==> SoundStmt(p.head, Then(level, p.tail)) && (CanFinishStmt(p.head) ==> Sound(p.tail, level))
  }

  /** The ranges under way stay as they are as long as a part of this level runs. */
  predicate Fixed(level: Level) {
    level.Deeper? || level.Failing? || (level.Inside? && level.ends)
  }

  // ----- The machine on a loaded template -----

  /** A loaded template: rows, jump table and oracle. */
  datatype Image = Image(o: Oracle, rows: seq<Row>, jumps: map<nat, nat>) {
    function Go(m: Machine, n: nat): Machine
      requires m.Ok()
    {
      Run(o, rows, jumps, m, n)
    }
  }

  /** The rows from `base` on are `seg`. */
  ghost predicate Holds(c: Image, base: nat, seg: seq<Row>) {
    base + |seg| <= |c.rows| && c.rows[base..base + |seg|] == seg
  }

  /** The machine is about to run row `idx`. */
  ghost predicate Before(m: Machine, idx: nat) {
    m.Ok() && m.status.Running? && m.idx == idx && m.input == []
  }

  /** The current range, if any, does not end at one of the rows lo..hi. */
  ghost predicate Away(m: Machine, lo: nat, hi: nat)
    requires m.Ok()
  {
    m.current.Some? ==> !(lo <= m.cells[m.current.value].end < hi)
  }

  /** No range is under way before row n; a range over nothing may have left its record behind. */
  ghost predicate Idle(m: Machine, n: nat)
    requires m.Ok()
  {
    m.rangeStack == [] && (m.current.Some? ==> m.cells[m.current.value].end < n)
  }

  // ----- Single rows -----

  /** How a plain or header expression moves the machine on. */
  lemma ExprRuns(c: Image, m: Machine, e: Expr, guarded: bool)
    requires m.Ok() && m.status.Running?
    requires if guarded then HeaderFunc(e.func) else PlainFunc(e.func)
    requires if guarded then Jump(c.jumps, m.idx) > 0 else Jump(c.jumps, m.idx) == 0
    ensures var f := StepExpr(c.o, c.jumps, m, e);
            var r := c.o.Evaluate(m.trace, e, m.input);
            var m1 := m.Emit(Effects(e, m.input, r));
            if e.func.Send? || e.func.SendSync? then
              if r.err || r.out == [] then f == Flow(m1.Stop(SendFailed), true)
              else if e.func.SendSync? then f == Flow(m1.Stop(Suspended), true)
              else f == Flow(m1, false)
            else if e.func.Return? then f == Flow(m1.Stop(Returned), true)
            else if r.err && !guarded then f == Flow(m1.Stop(Status.Failed), true)
            else if r.err || (guarded && IsEmpty(r.out)) || (e.func.If? && IsFalse(r.out)) then
              f == Flow(m1.(idx := Jump(c.jumps, m.idx)), true)
            else f == Flow(m1.(input := r.out), false)
  {
  }

  /** A row of plain and header expressions does to the machine what Chain says. */
  lemma {:induction false} ChainRuns(c: Image, m: Machine, row: Row, k: nat, guarded: bool)
    requires m.Ok() && m.status.Running? && k <= |row|
    requires forall i :: 0 <= i < |row| ==> if guarded then HeaderFunc(row[i].func) else PlainFunc(row[i].func)
    requires if guarded then Jump(c.jumps, m.idx) > 0 else Jump(c.jumps, m.idx) == 0
    ensures var r := StepExprs(c.o, c.jumps, m, row, k);
            match Chain(c.o, row, k, guarded, m.trace, m.input)
            case Passed(t) => r == m.(trace := t, input := r.input)
            case Skipped(t) => guarded && r == m.(idx := Jump(c.jumps, m.idx), trace := t, input := r.input)
            case Stopped(t, s) => r.trace == t && r.status == s && !s.Running?
    decreases |row| - k
  {
    hide StepExpr;
    if k < |row| {
      ExprRuns(c, m, row[k], guarded);
      var f := StepExpr(c.o, c.jumps, m, row[k]);
      if !f.leave {
        ChainRuns(c, f.m, row, k + 1, guarded);
      }
    }
  }

  lemma LineRuns(c: Image, m: Machine, base: nat)
    requires Before(m, base) && base < |c.rows| && PlainRow(c.rows[base]) && base !in c.jumps
    ensures var r := StepRow(c.o, c.rows, c.jumps, m);
            match Chain(c.o, c.rows[base], 0, false, m.trace, [])
            case Passed(t) => r == m.(trace := t, idx := base + 1)
            case Skipped(t) => false
            case Stopped(t, s) => r.trace == t && r.status == s && !s.Running?
  {
    hide StepExprs;
    var row := c.rows[base];
    assert !HasOpen(row);
    ChainRuns(c, m, row, 0, false);
  }

  lemma HeaderRuns(c: Image, m: Machine, base: nat)
    requires Before(m, base) && base < |c.rows| && HeaderRow(c.rows[base])
    requires base in c.jumps && c.jumps[base] > 0
    ensures var r := StepRow(c.o, c.rows, c.jumps, m);
            match Chain(c.o, c.rows[base], 0, true, m.trace + [Append], [])
            case Passed(t) => r == m.(trace := t, idx := base + 1)
            case Skipped(t) => r == m.(trace := t, idx := c.jumps[base] + 1)
            case Stopped(t, s) => r.trace == t && r.status == s && !s.Running?
  {
    hide StepExprs;
    ChainRuns(c, m.Emit([Append]), c.rows[base], 0, true);
  }

  lemma OneExpr(c: Image, m: Machine, e: Expr)
    requires m.Ok()
    ensures StepExprs(c.o, c.jumps, m, [e], 0) == StepExpr(c.o, c.jumps, m, e).m
  {
  }

  lemma ElseRuns(c: Image, m: Machine, mid: nat)
    requires Before(m, mid) && mid < |c.rows| && c.rows[mid] == [ElseExpr] && mid in c.jumps
    ensures StepRow(c.o, c.rows, c.jumps, m) == m.(trace := m.trace + [ElseEvent], idx := c.jumps[mid])
  {
    hide StepExprs;
    OneExpr(c, m, ElseExpr);
  }

  /** An "end" row that does not end the current range. */
  lemma EndRuns(c: Image, m: Machine, end: nat)
    requires Before(m, end) && end < |c.rows| && c.rows[end] == [EndExpr] && Away(m, end, end + 1)
    ensures StepRow(c.o, c.rows, c.jumps, m) == m.(trace := m.trace + EndEvents, idx := end + 1)
  {
    hide StepExprs;
    OneExpr(c, m, EndExpr);
    assert m.trace + [Eval(EndExpr, [], Outcome([], false))] + [Pop] == m.trace + EndEvents;
  }

  // ----- The rows of a range -----

  /** The record of a range whose elements up to index have been started. */
  function Cell(range: Expr, items: seq<Item>, base: nat, end: nat, index: nat): RangeValue
    requires |range.params| >= 3
  {
    RangeValue(items, base, index, end, range.params[1], range.params[2])
  }

  /** The "range" row. */
  lemma RangeRuns(c: Image, m: Machine, base: nat, range: Expr, end: nat)
    requires Before(m, base) && base < |c.rows| && c.rows[base] == [range]
    requires range.func.Range? && |range.params| >= 3 && base in c.jumps && c.jumps[base] == end && end > base
    ensures var r := StepRow(c.o, c.rows, c.jumps, m);
            var t := m.trace + [Append];
            var t' := t + [Eval(range, [], c.o.Evaluate(t, range, []))];
            match c.o.items(t, range, [])
            case None => r == m.(trace := t', idx := end + 1)
            case Some(items) =>
              if items == [] then
                r == m.(trace := t', idx := end, cells := m.cells + [Cell(range, items, base, end, 0)], current := Some(|m.cells|))
              else
                r == m.(trace := t' + Binds(range, items[0]), idx := base + 1,
                        cells := m.cells + [Cell(range, items, base, end, 1)], current := Some(|m.cells|),
                        rangeStack := m.rangeStack + [|m.cells|])
  {
    hide StepExprs;
    assert Opens(c.rows[base][0].func) && HasOpen(c.rows[base]);
    var m1 := m.Emit([Append]);
    OneExpr(c, m1, range);
    var t := m1.trace;
    if c.o.items(t, range, []).Some? {
      var items := c.o.items(t, range, []).value;
      var n := |m.cells|;
      var cells := m.cells + [Cell(range, items, base, end, 0)];
      assert items != [] ==> cells[n := Cell(range, items, base, end, 1)] == m.cells + [Cell(range, items, base, end, 1)];
    }
  }

  /** The "end" row of the current range with elements left: the next one is bound in a new scope. */
  lemma EndRunsNext(c: Image, m: Machine, end: nat, n: nat)
    requires Before(m, end) && end < |c.rows| && c.rows[end] == [EndExpr]
    requires m.current == Some(n) && m.cells[n].end == end && m.cells[n].index < |m.cells[n].items| && m.cells[n].start >= 0
    ensures var v := m.cells[n];
            StepRow(c.o, c.rows, c.jumps, m) ==
            m.(trace := m.trace + EndEvents + [Append] +
                        [Bind(v.keyVar, Str(v.items[v.index].key)), Bind(v.valueVar, v.items[v.index].value)],
               idx := v.start + 1, cells := m.cells[n := v.(index := v.index + 1)])
  {
    hide StepExprs;
    OneExpr(c, m, EndExpr);
    assert m.trace + [Eval(EndExpr, [], Outcome([], false))] + [Pop] == m.trace + EndEvents;
  }

  /** The "end" row of the current range after its last element. */
  lemma EndRunsLast(c: Image, m: Machine, end: nat, n: nat)
    requires Before(m, end) && end < |c.rows| && c.rows[end] == [EndExpr]
    requires m.current == Some(n) && m.cells[n].end == end && m.cells[n].index == |m.cells[n].items|
    requires |m.rangeStack| <= 1
    ensures StepRow(c.o, c.rows, c.jumps, m) ==
            m.(trace := m.trace + EndEvents, idx := end + 1, rangeStack := [],
               current := if m.rangeStack == [] then m.current else None)
  {
    hide StepExprs;
    OneExpr(c, m, EndExpr);
    assert m.trace + [Eval(EndExpr, [], Outcome([], false))] + [Pop] == m.trace + EndEvents;
    assert m.rangeStack != [] ==> m.rangeStack[..|m.rangeStack| - 1] == [];
  }

  // ----- Whole programs -----

  /** After n rows from m the run is in state st; if it still runs, it is about to run row hi, and the
      ranges are as they were or, unless they are fixed, none is under way. */
  ghost predicate Reaches(c: Image, m: Machine, n: nat, st: State, hi: nat, fixed: bool)
    requires m.Ok()
  {
    var r := c.Go(m, n);
    && r.trace == st.trace && r.status == st.status
    && (st.status.Running? ==> Before(r, hi) && (r == m.(idx := hi, trace := st.trace) || (!fixed && Idle(r, hi))))
  }

  /** What a part of a program needs of the machine that enters it at row `base`. */
  ghost predicate Ready(c: Image, m: Machine, base: nat, seg: seq<Row>, level: Level) {
    && Before(m, base)
    && Holds(c, base, seg)
    && Away(m, base, base + |seg|)
    && (level.Outside? ==> Idle(m, base))
    && (level.Inside? ==> |m.rangeStack| <= 1)
  }

  /** A part of level Failing is only run under oracles that fail every range it meets. */
  ghost predicate Suits(o: Oracle, level: Level, st: State, st': State) {
    level.Failing? ==> FailsOn(o, |st.trace|, |st'.trace|)
  }

  ghost predicate FailsOn(o: Oracle, lo: nat, hi: nat) {
    forall t, e, input :: lo <= |t| < hi ==> o.items(t, e, input) == None
  }

  lemma GoOne(c: Image, m: Machine)
    requires m.Ok() && Live(c.rows, m)
    ensures c.Go(m, 1) == StepRow(c.o, c.rows, c.jumps, m)
  {
  }

  lemma GoThen(c: Image, m: Machine, a: nat, b: nat)
    requires m.Ok()
    ensures c.Go(m, a + b) == c.Go(c.Go(m, a), b)
  {
    RunAdd(c.o, c.rows, c.jumps, m, a, b);
  }

  lemma HoldsSplit(c: Image, base: nat, a: seq<Row>, b: seq<Row>)
    requires Holds(c, base, a + b)
    ensures Holds(c, base, a) && Holds(c, base + |a|, b)
  {
    var all := c.rows[base..base + |a + b|];
    assert all[..|a|] == a && all[|a|..] == b;
    assert c.rows[base..base + |a|] == all[..|a|];
    assert c.rows[base + |a|..base + |a| + |b|] == all[|a|..];
  }

  lemma HoldsRow(c: Image, base: nat, row: Row)
    requires Holds(c, base, [row])
    ensures base < |c.rows| && c.rows[base] == row
  {
  }

  /** A run of a rows that led to m1, followed by one of b rows from there. */
  lemma ReachesThen(c: Image, m: Machine, a: nat, m1: Machine, b: nat, st: State, hi: nat, fixed: bool)
    requires m.Ok() && m1 == c.Go(m, a) && Reaches(c, m1, b, st, hi, fixed) && m1.idx <= hi
    requires st.status.Running? ==> m1 == m.(idx := m1.idx, trace := m1.trace) || (!fixed && Idle(m1, m1.idx))
    ensures Reaches(c, m, a + b, st, hi, fixed)
  {
    GoThen(c, m, a, b);
  }

  /** A run that stops on its first row. */
  lemma ReachesStop(c: Image, m: Machine, st: State, hi: nat, fixed: bool)
    requires m.Ok() && Live(c.rows, m) && !st.status.Running?
    requires var r := StepRow(c.o, c.rows, c.jumps, m); r.trace == st.trace && r.status == st.status
    ensures Reaches(c, m, 1, st, hi, fixed)
  {
  }

  /** A run of one row that leaves the ranges alone. */
  lemma ReachesStep(c: Image, m: Machine, base: nat, st: State, hi: nat, fixed: bool)
    requires Before(m, base) && base < |c.rows| && st.status.Running?
    requires StepRow(c.o, c.rows, c.jumps, m) == m.(idx := hi, trace := st.trace)
    ensures Reaches(c, m, 1, st, hi, fixed)
  {
    hide StepRow;
    GoOne(c, m);
  }

  /** Where the parts of a block lie. */
  lemma LayoutBlock(c: Image, h: Row, body: Prog, base: nat)
    requires Holds(c, base, [h] + Flat(body) + [[EndExpr]])
    ensures var end := base + 1 + |Flat(body)|;
            && base < |c.rows| && c.rows[base] == h
            && Holds(c, base + 1, Flat(body) + [[EndExpr]])
            && end < |c.rows| && c.rows[end] == [EndExpr]
  {
    hide Holds;
    assert [h] + Flat(body) + [[EndExpr]] == [h] + (Flat(body) + [[EndExpr]]);
    HoldsSplit(c, base, [h], Flat(body) + [[EndExpr]]);
    HoldsRow(c, base, h);
    HoldsSplit(c, base + 1, Flat(body), [[EndExpr]]);
    HoldsRow(c, base + 1 + |Flat(body)|, [EndExpr]);
  }

  /** The body of a block and the "end" row behind it. */
  lemma {:induction false} BodyThenEnd(c: Image, body: Prog, lo: nat, m: Machine, st: State, level: Level) returns (n: nat)
    requires Wf(body) && Sound(body, level) && Linked(body, lo, c.jumps) && Ready(c, m, lo, Flat(body) + [[EndExpr]], level)
    requires st.trace == m.trace && st.status.Running? && Suits(c.o, level, st, Finish(Meaning(c.o, body, st), EndEvents))
    ensures Reaches(c, m, n, Finish(Meaning(c.o, body, st), EndEvents), lo + |Flat(body)| + 1, Fixed(level))
    decreases body, 1
  {
    hide Meaning, Linked, Run, StepRow, Holds, Wf, Chain, Sound;
    var end := lo + |Flat(body)|;
    HoldsSplit(c, lo, Flat(body), [[EndExpr]]);
    HoldsRow(c, end, [EndExpr]);
    var st1 := Meaning(c.o, body, st);
    var a := SimProg(c, body, lo, m, st, level);
    var m1 := c.Go(m, a);
    n := a;
    if st1.status.Running? {
      EndRuns(c, m1, end);
      var st2 := Finish(st1, EndEvents);
      ReachesStep(c, m1, end, st2, end + 1, Fixed(level));
      ReachesThen(c, m, a, m1, 1, st2, end + 1, Fixed(level));
      n := a + 1;
    }
  }

  lemma {:induction false} SimProg(c: Image, p: Prog, base: nat, m: Machine, st: State, level: Level) returns (n: nat)
    requires Wf(p) && Sound(p, level) && Linked(p, base, c.jumps) && Ready(c, m, base, Flat(p), level)
    requires st.trace == m.trace && st.status.Running? && Suits(c.o, level, st, Meaning(c.o, p, st))
    ensures Reaches(c, m, n, Meaning(c.o, p, st), base + |Flat(p)|, Fixed(level))
    decreases p, 0
  {
    hide MeaningStmt, LinkedStmt, Run, Holds, WfStmt, SoundStmt;
    match p
    case Nil =>
      n := 0;
      GoZero(c, m);
    case Cons(s, tail) =>
      var mid := base + |FlatStmt(s)|;
      HoldsSplit(c, base, FlatStmt(s), Flat(tail));
      var st1 := MeaningStmt(c.o, s, st);
      StmtFollows(c.o, s, st);
      if st1.status.Running? {
        StmtCan(c.o, s, st);
        MeaningFollows(c.o, tail, st1);
        var a := SimStmt(c, s, base, m, st, Then(level, tail));
        var m1 := c.Go(m, a);
        var b := SimProg(c, tail, mid, m1, st1, level);
        if Meaning(c.o, tail, st1).status.Running? {
          MeaningCan(c.o, tail, st1);
        }
        ReachesThen(c, m, a, m1, b, Meaning(c.o, tail, st1), mid + |Flat(tail)|, Fixed(level));
        n := a + b;
      } else {
        n := SimStmt(c, s, base, m, st, Then(level, tail));
      }
  }

  lemma GoZero(c: Image, m: Machine)
    requires m.Ok()
    ensures c.Go(m, 0) == m
  {
  }

  lemma {:induction false} SimStmt(c: Image, s: Stmt, base: nat, m: Machine, st: State, level: Level) returns (n: nat)
    requires WfStmt(s) && SoundStmt(s, level) && LinkedStmt(s, base, c.jumps) && Ready(c, m, base, FlatStmt(s), level)
    requires st.trace == m.trace && st.status.Running? && Suits(c.o, level, st, MeaningStmt(c.o, s, st))
    ensures Reaches(c, m, n, MeaningStmt(c.o, s, st), base + |FlatStmt(s)|, Fixed(level))
    decreases s, 3
  {
    hide Run, StepRow, Chain, Holds;
    match s
    case Line(row) =>
      HoldsRow(c, base, row);
      LineRuns(c, m, base);
      var st1 := MeaningStmt(c.o, s, st);
      if st1.status.Running? {
        ReachesStep(c, m, base, st1, base + 1, Fixed(level));
      } else {
        ReachesStop(c, m, st1, base + 1, Fixed(level));
      }
      n := 1;
    case Guard(h, body) =>
      n := SimGuard(c, h, body, base, m, st, level);
    case GuardElse(h, body, els) =>
      n := SimGuardElse(c, h, body, els, base, m, st, level);
    case Loop(range, body) =>
      n := SimLoop(c, range, body, base, m, st, level);
  }

  lemma {:induction false} SimGuard(c: Image, h: Row, body: Prog, base: nat, m: Machine, st: State, level: Level) returns (n: nat)
    requires var s := Guard(h, body);
             && WfStmt(s) && SoundStmt(s, level) && LinkedStmt(s, base, c.jumps) && Ready(c, m, base, FlatStmt(s), level)
             && Suits(c.o, level, st, MeaningStmt(c.o, s, st))
    requires st.trace == m.trace && st.status.Running?
    ensures Reaches(c, m, n, MeaningStmt(c.o, Guard(h, body), st), base + |FlatStmt(Guard(h, body))|, Fixed(level))
    decreases body, 2
  {
    hide Run, StepRow, Meaning, Linked, Chain, Holds, Wf, HeaderRow, Sound, Reaches;
    var hi := base + |FlatStmt(Guard(h, body))|;
    LayoutBlock(c, h, body, base);
    HeaderRuns(c, m, base);
    ChainCan(c.o, h, 0, true, m.trace + [Append], []);
    ChainFollows(c.o, h, 0, true, m.trace + [Append], []);
    var st' := MeaningStmt(c.o, Guard(h, body), st);
    match Chain(c.o, h, 0, true, m.trace + [Append], [])
    case Passed(t) =>
      var m1 := m.(trace := t, idx := base + 1);
      GoOne(c, m);
      var b := BodyThenEnd(c, body, base + 1, m1, st.(trace := t), level);
      ReachesThen(c, m, 1, m1, b, st', hi, Fixed(level));
      n := 1 + b;
    case Skipped(t) =>
      ReachesStep(c, m, base, st', hi, Fixed(level));
      n := 1;
    case Stopped(t, status) =>
      ReachesStop(c, m, st', hi, Fixed(level));
      n := 1;
  }

  /** The body of a block with an "else": body, "else" row, "end" row. */
  lemma {:induction false} BodyThenElse(c: Image, body: Prog, lo: nat, end: nat, m: Machine, st: State, level: Level)
    returns (n: nat)
    requires Wf(body) && Sound(body, level) && Linked(body, lo, c.jumps) && Ready(c, m, lo, Flat(body) + [[ElseExpr]], level)
    requires var mid := lo + |Flat(body)|; mid < end && mid in c.jumps && c.jumps[mid] == end
    requires end < |c.rows| && c.rows[end] == [EndExpr] && Away(m, end, end + 1)
    requires st.trace == m.trace && st.status.Running?
    requires Suits(c.o, level, st, Finish(Meaning(c.o, body, st), [ElseEvent] + EndEvents))
    ensures Reaches(c, m, n, Finish(Meaning(c.o, body, st), [ElseEvent] + EndEvents), end + 1, Fixed(level))
    decreases body, 1
  {
    hide Meaning, Linked, Run, StepRow, Holds, Wf, Chain, Sound;
    var mid := lo + |Flat(body)|;
    HoldsSplit(c, lo, Flat(body), [[ElseExpr]]);
    HoldsRow(c, mid, [ElseExpr]);
    var st1 := Meaning(c.o, body, st);
    n := SimProg(c, body, lo, m, st, level);
    hide Flat;
    if st1.status.Running? {
      ElseAfter(c, m, n, mid, end, st1, Fixed(level));
      n := n + 2;
    }
  }

  /** A run that has reached the "else" row goes on to behind the "end" row. */
  lemma ElseAfter(c: Image, m: Machine, a: nat, mid: nat, end: nat, st1: State, fixed: bool)
    requires m.Ok() && Reaches(c, m, a, st1, mid, fixed) && st1.status.Running? && Away(m, end, end + 1)
    requires mid < end < |c.rows| && c.rows[mid] == [ElseExpr] && mid in c.jumps && c.jumps[mid] == end
    requires c.rows[end] == [EndExpr]
    ensures Reaches(c, m, a + 2, Finish(st1, [ElseEvent] + EndEvents), end + 1, fixed)
  {
    hide Run;
    var m1, st2 := c.Go(m, a), Finish(st1, [ElseEvent] + EndEvents);
    ElseThenEnd(c, m1, mid, end, st2, fixed);
    ReachesThen(c, m, a, m1, 2, st2, end + 1, fixed);
  }

  /** The "else" row behind a body that has run, and the "end" row that it jumps to. */
  lemma ElseThenEnd(c: Image, m: Machine, mid: nat, end: nat, st: State, fixed: bool)
    requires Before(m, mid) && mid < |c.rows| && c.rows[mid] == [ElseExpr] && mid in c.jumps && c.jumps[mid] == end
    requires mid < end < |c.rows| && c.rows[end] == [EndExpr] && Away(m, end, end + 1)
    requires st.status.Running? && st.trace == m.trace + ([ElseEvent] + EndEvents)
    ensures Reaches(c, m, 2, st, end + 1, fixed)
  {
    hide Run, StepRow;
    ElseRuns(c, m, mid);
    var m1 := m.(trace := m.trace + [ElseEvent], idx := end);
    EndRuns(c, m1, end);
    GoOne(c, m);
    assert m.trace + [ElseEvent] + EndEvents == st.trace;
    ReachesStep(c, m1, end, st, end + 1, fixed);
    ReachesThen(c, m, 1, m1, 1, st, end + 1, fixed);
  }

  /** Where the parts of a block with an "else" lie. */
  lemma LayoutElse(c: Image, h: Row, body: seq<Row>, els: seq<Row>, base: nat)
    requires Holds(c, base, [h] + body + [[ElseExpr]] + els + [[EndExpr]])
    ensures var mid := base + 1 + |body|;
            var end := mid + 1 + |els|;
            && base < |c.rows| && c.rows[base] == h
            && Holds(c, base + 1, body + [[ElseExpr]])
            && Holds(c, mid + 1, els + [[EndExpr]])
            && end < |c.rows| && c.rows[end] == [EndExpr]
  {
    hide Holds;
    var first, rest := body + [[ElseExpr]], els + [[EndExpr]];
    assert [h] + body + [[ElseExpr]] + els + [[EndExpr]] == [h] + (first + rest);
    HoldsSplit(c, base, [h], first + rest);
    HoldsRow(c, base, h);
    HoldsSplit(c, base + 1, first, rest);
    HoldsSplit(c, base + 2 + |body|, els, [[EndExpr]]);
    HoldsRow(c, base + 2 + |body| + |els|, [EndExpr]);
  }

  lemma {:induction false} SimGuardElse(c: Image, h: Row, body: Prog, els: Prog, base: nat, m: Machine, st: State, level: Level)
    returns (n: nat)
    requires EntersElse(c, h, body, els, base, m, st, level)
    ensures var s := GuardElse(h, body, els);
            Reaches(c, m, n, MeaningStmt(c.o, s, st), base + |FlatStmt(s)|, Fixed(level))
    decreases GuardElse(h, body, els), 2
  {
    hide Run, StepRow, Chain, EntersElse, Reaches;
    match Chain(c.o, h, 0, true, st.trace + [Append], [])
    case Passed(t) =>
      n := SimThenPart(c, h, body, els, base, m, st, level);
    case Skipped(t) =>
      n := SimElsePart(c, h, body, els, base, m, st, level);
    case Stopped(t, status) =>
      SimElseStop(c, h, body, els, base, m, st, level);
      n := 1;
  }

  /** The machine is about to run a block with an "else". */
  ghost predicate EntersElse(c: Image, h: Row, body: Prog, els: Prog, base: nat, m: Machine, st: State, level: Level) {
    var s := GuardElse(h, body, els);
    && WfStmt(s) && SoundStmt(s, level) && LinkedStmt(s, base, c.jumps) && Ready(c, m, base, FlatStmt(s), level)
    && st.trace == m.trace && st.status.Running? && Suits(c.o, level, st, MeaningStmt(c.o, s, st))
  }

  lemma {:induction false} SimThenPart(c: Image, h: Row, body: Prog, els: Prog, base: nat, m: Machine, st: State, level: Level)
    returns (n: nat)
    requires EntersElse(c, h, body, els, base, m, st, level) && Chain(c.o, h, 0, true, st.trace + [Append], []).Passed?
    ensures var s := GuardElse(h, body, els);
            Reaches(c, m, n, MeaningStmt(c.o, s, st), base + |FlatStmt(s)|, Fixed(level))
    decreases GuardElse(h, body, els), 1
  {
    hide Run, StepRow, Meaning, Linked, Chain, Holds, Wf, HeaderRow, Sound, Reaches;
    LayoutElse(c, h, Flat(body), Flat(els), base);
    HeaderRuns(c, m, base);
    GoOne(c, m);
    ChainCan(c.o, h, 0, true, m.trace + [Append], []);
    ChainFollows(c.o, h, 0, true, m.trace + [Append], []);
    var m1, end := c.Go(m, 1), base + 2 + |Flat(body)| + |Flat(els)|;
    n := BodyThenElse(c, body, base + 1, end, m1, st.(trace := m1.trace), level);
    ReachesThen(c, m, 1, m1, n, MeaningStmt(c.o, GuardElse(h, body, els), st), end + 1, Fixed(level));
    n := 1 + n;
  }

  lemma {:induction false} SimElsePart(c: Image, h: Row, body: Prog, els: Prog, base: nat, m: Machine, st: State, level: Level)
    returns (n: nat)
    requires EntersElse(c, h, body, els, base, m, st, level) && Chain(c.o, h, 0, true, st.trace + [Append], []).Skipped?
    ensures var s := GuardElse(h, body, els);
            Reaches(c, m, n, MeaningStmt(c.o, s, st), base + |FlatStmt(s)|, Fixed(level))
    decreases GuardElse(h, body, els), 1
  {
    hide Run, StepRow, Meaning, Linked, Chain, Holds, Wf, HeaderRow, Sound, Reaches;
    LayoutElse(c, h, Flat(body), Flat(els), base);
    HeaderRuns(c, m, base);
    GoOne(c, m);
    ChainCan(c.o, h, 0, true, m.trace + [Append], []);
    ChainFollows(c.o, h, 0, true, m.trace + [Append], []);
    var m1, mid := c.Go(m, 1), base + 1 + |Flat(body)|;
    n := BodyThenEnd(c, els, mid + 1, m1, st.(trace := m1.trace), level);
    ReachesThen(c, m, 1, m1, n, MeaningStmt(c.o, GuardElse(h, body, els), st), mid + 2 + |Flat(els)|, Fixed(level));
    n := 1 + n;
  }

  lemma SimElseStop(c: Image, h: Row, body: Prog, els: Prog, base: nat, m: Machine, st: State, level: Level)
    requires EntersElse(c, h, body, els, base, m, st, level) && Chain(c.o, h, 0, true, st.trace + [Append], []).Stopped?
    ensures var s := GuardElse(h, body, els);
            Reaches(c, m, 1, MeaningStmt(c.o, s, st), base + |FlatStmt(s)|, Fixed(level))
  {
    hide Run, StepRow, Meaning, Linked, Chain, Holds, Wf, HeaderRow, Sound, Reaches;
    LayoutElse(c, h, Flat(body), Flat(els), base);
    HeaderRuns(c, m, base);
    var s := GuardElse(h, body, els);
    ReachesStop(c, m, MeaningStmt(c.o, s, st), base + |FlatStmt(s)|, Fixed(level));
  }

  /** The machine is in the body of the range for element k, below it on the stack the ranges `outer`. */
  ghost predicate InRange(m: Machine, outer: seq<nat>, cell: nat, range: Expr, items: seq<Item>, base: nat, end: nat, k: nat)
    requires |range.params| >= 3
  {
    && Before(m, base + 1)
    && m.rangeStack == outer + [cell] && m.current == Some(cell)
    && k < |items| && m.cells[cell] == Cell(range, items, base, end, k + 1)
  }

  /** After n rows from m the run is in state st; if it still runs, no range is under way. */
  ghost predicate Leaves(c: Image, m: Machine, n: nat, st: State, hi: nat)
    requires m.Ok()
  {
    var r := c.Go(m, n);
    && r.trace == st.trace && r.status == st.status
    && (st.status.Running? ==> Before(r, hi) && Idle(r, hi))
  }

  /** The elements from k on of a range outside of others: the machine has bound element k, the
      structure is about to. */
  lemma {:induction false} SimIterate(c: Image, range: Expr, body: Prog, items: seq<Item>, base: nat, cell: nat, k: nat,
                                      m: Machine, st: State) returns (n: nat)
    requires Wf(body) && Sound(body, Inside(true)) && |range.params| >= 3 && Linked(body, base + 1, c.jumps)
    requires Holds(c, base + 1, Flat(body) + [[EndExpr]])
    requires InRange(m, [], cell, range, items, base, base + 1 + |Flat(body)|, k)
    requires st.status.Running? && m.trace == st.trace + Binds(range, items[k])
    ensures Leaves(c, m, n, Iterate(c.o, range, body, items, k, st), base + 2 + |Flat(body)|)
    decreases body, 1 + |items| - k
  {
    hide Run, StepRow, Meaning, Linked, Holds, Wf, Sound;
    var end := base + 1 + |Flat(body)|;
    HoldsSplit(c, base + 1, Flat(body), [[EndExpr]]);
    HoldsRow(c, end, [EndExpr]);
    var bound := st.(trace := m.trace);
    var a := SimProg(c, body, base + 1, m, bound, Inside(true));
    var st1 := Meaning(c.o, body, bound);
    var m1 := c.Go(m, a);
    if st1.status.Running? {
      GoOne(c, m1);
      GoThen(c, m, a, 1);
      var m2 := c.Go(m, a + 1);
      if k + 1 < |items| {
        EndRunsNext(c, m1, end, cell);
        var st2 := Finish(st1, EndEvents).Emit([Append]);
        var b := SimIterate(c, range, body, items, base, cell, k + 1, m2, st2);
        GoThen(c, m, a + 1, b);
        n := a + 1 + b;
      } else {
        EndRunsLast(c, m1, end, cell);
        n := a + 1;
      }
    } else {
      n := a;
    }
  }

  lemma {:induction false} SimLoop(c: Image, range: Expr, body: Prog, base: nat, m: Machine, st: State, level: Level)
    returns (n: nat)
    requires var s := Loop(range, body);
             && WfStmt(s) && SoundStmt(s, level) && LinkedStmt(s, base, c.jumps) && Ready(c, m, base, FlatStmt(s), level)
             && Suits(c.o, level, st, MeaningStmt(c.o, s, st))
    requires st.trace == m.trace && st.status.Running?
    ensures var s := Loop(range, body);
            Reaches(c, m, n, MeaningStmt(c.o, s, st), base + |FlatStmt(s)|, Fixed(level))
    decreases Loop(range, body), 2
  {
    hide Run, StepRow, Meaning, Linked, Iterate, Holds, Wf, Sound;
    var s := Loop(range, body);
    var end := base + 1 + |Flat(body)|;
    LayoutBlock(c, [range], body, base);
    RangeRuns(c, m, base, range, end);
    GoOne(c, m);
    var m1 := c.Go(m, 1);
    var st' := MeaningStmt(c.o, s, st);
    var t := m.trace + [Append];
    var t' := t + [Eval(range, [], c.o.Evaluate(t, range, []))];
    match c.o.items(t, range, [])
    case None =>
      ReachesStep(c, m, base, st', end + 1, Fixed(level));
      n := 1;
    case Some(items) =>
      if items == [] {
        EndRunsLast(c, m1, end, |m.cells|);
        GoOne(c, m1);
        GoThen(c, m, 1, 1);
        n := 2;
      } else if level.Outside? {
        var b := SimIterate(c, range, body, items, base, |m.cells|, 0, m1, st.(trace := t'));
        GoThen(c, m, 1, b);
        n := 1 + b;
      } else {
        IterateFollows(c.o, range, body, items, 0, st.(trace := t'));
        assert !level.Failing?;
        var b := DoomedLoop(c, range, body, items, base, m1, st.(trace := t'));
        GoThen(c, m, 1, b);
        n := 1 + b;
      }
  }

  /** A range inside another one whose body cannot finish: the run ends in its first iteration. */
  lemma {:induction false} DoomedLoop(c: Image, range: Expr, body: Prog, items: seq<Item>, base: nat, m: Machine, st: State)
    returns (n: nat)
    requires Wf(body) && Sound(body, Deeper) && !CanFinish(body) && |range.params| >= 3 && Linked(body, base + 1, c.jumps)
    requires Holds(c, base + 1, Flat(body) + [[EndExpr]])
    requires Before(m, base + 1) && Away(m, base + 1, base + 1 + |Flat(body)|)
    requires items != [] && st.status.Running? && m.trace == st.trace + Binds(range, items[0])
    ensures var st' := Iterate(c.o, range, body, items, 0, st);
            var r := c.Go(m, n);
            r.trace == st'.trace && r.status == st'.status && !st'.status.Running?
    decreases body, 1
  {
    hide Run, Meaning, Linked, Holds, Wf, Sound;
    HoldsSplit(c, base + 1, Flat(body), [[EndExpr]]);
    var bound := st.(trace := m.trace);
    n := SimProg(c, body, base + 1, m, bound, Deeper);
    if Meaning(c.o, body, bound).status.Running? {
      MeaningCan(c.o, body, bound);
    }
  }

  /** The table that Build makes of a program. */
  function Table(p: Prog): map<nat, nat> {
    match LinkAll(Flat(p), 0, NoLinks)
    case Rejected(jumps) => jumps
    case Built(links) => links.jumps
  }

  /** Built and executed, the program stops after finitely many rows with the trace and the status that
      its structure gives it. */
  ghost predicate RunsRight(o: Oracle, p: Prog)
    requires Wf(p)
  {
    var meaning := Meaning(o, p, State([], 0, Running));
    exists n: nat ::
      var r := Run(o, Flat(p), Table(p), Start, n);
      !Live(Flat(p), r) && r.trace == meaning.trace && r.status == meaning.status
  }

  /** Compiler correctness: every Sound program is built and run right, whatever the oracle. */
  lemma CompilerCorrect(o: Oracle, p: Prog)
    requires Wf(p) && Sound(p, Outside)
    ensures var built := LinkAll(Flat(p), 0, NoLinks);
            built.Built? && built.links.stack == [] && RunsRight(o, p)
  {
    hide LinkAll, Meaning, Linked, Run, Sound;
    BuildLinksProgram(p);
    var c := Image(o, Flat(p), Table(p));
    assert c.rows[0..0 + |Flat(p)|] == Flat(p);
    var n := SimProg(c, p, 0, Start, State([], 0, Running), Outside);
    assert !Live(Flat(p), Run(o, Flat(p), Table(p), Start, n));
  }

  /** Build and Execute together: the run of a flattened program is its meaning. */
  method BuildAndExecute(o: Oracle, p: Prog) returns (trace: Trace, status: Status)
    requires Wf(p) && Sound(p, Outside)
    ensures trace == Meaning(o, p, State([], 0, Running)).trace
    ensures status == Meaning(o, p, State([], 0, Running)).status
  {
    hide LinkAll, Meaning, Run;
    CompilerCorrect(o, p);
    var template := new Compiler(Flat(p));
    var ok := template.Build();
    assert template.indexRun == Table(p);
    ghost var n: nat :| !Live(Flat(p), Run(o, Flat(p), template.indexRun, Start, n)) &&
                   Run(o, Flat(p), template.indexRun, Start, n).trace == Meaning(o, p, State([], 0, Running)).trace &&
                   Run(o, Flat(p), template.indexRun, Start, n).status == Meaning(o, p, State([], 0, Running)).status;
    var runtime := new TemplateRuntime(o, Flat(p), template.indexRun);
    var idx, rangeStack;
    idx, rangeStack, status := runtime.Execute(n);
    trace := runtime.trace;
  }
}
