/**
  Every program that is not Sound can be led astray, so Sound is exactly what the machine runs right.
 */
module Exactness {
  import opened Common
  import opened Template
  import opened Runtime
  import opened Structured
  import opened Reach
  import opened Simulation
  import opened Nesting

  // ----- Leading a run asks the oracle at the lengths the run passes through -----

  lemma FailsLocal(o: Oracle, o': Oracle, lo: nat, hi: nat)
    requires Alike(o, o', lo, hi) && FailsOn(o, lo, hi)
    ensures FailsOn(o', lo, hi)
  {
    forall t, e, input | lo <= |t| < hi
      ensures o'.items(t, e, input) == None
    {
      assert o.eval(t, e, input) == o'.eval(t, e, input);
    }
  }

  lemma PassesLocal(o: Oracle, o': Oracle, p: Prog, st: State, lo: nat, hi: nat)
    requires Wf(p) && st.status.Running? && Passes(o, p, st)
    requires Alike(o, o', lo, hi) && lo <= |st.trace| && |Meaning(o, p, st).trace| <= hi
    ensures Passes(o', p, st)
  {
    hide Meaning, Alike, FailsOn;
    PartLocal(o, o', p, st, lo, hi);
    AlikePart(o, o', lo, hi, |st.trace|, |Meaning(o, p, st).trace|);
    FailsLocal(o, o', |st.trace|, |Meaning(o, p, st).trace|);
  }

  lemma {:induction false} LeadsStmtLocal(o: Oracle, o': Oracle, goal: Goal, s: Stmt, st: State)
    requires WfStmt(s) && st.status.Running? && LeadsStmt(o, goal, s, st)
    requires Alike(o, o', |st.trace|, |MeaningStmt(o, s, st).trace|)
    ensures LeadsStmt(o', goal, s, st)
    decreases s, 2
  {
    hide Alike, Chain, Meaning, Iterate, Leads, Wf;
    var lo, hi, t := |st.trace|, |MeaningStmt(o, s, st).trace|, st.trace + [Append];
    match s
    case Guard(h, body) =>
      var r := Chain(o, h, 0, true, t, []);
      ChainFollows(o, h, 0, true, t, []);
      LeadsPartLocal(o, o', goal, body, st.(trace := r.trace), lo, hi);
      HeaderLocal(o, o', h, t, lo, hi);
    case GuardElse(h, body, els) =>
      var r := Chain(o, h, 0, true, t, []);
      ChainFollows(o, h, 0, true, t, []);
      LeadsPartLocal(o, o', goal, if r.Passed? then body else els, st.(trace := r.trace), lo, hi);
      HeaderLocal(o, o', h, t, lo, hi);
    case Loop(range, body) =>
      LeadsLoopLocal(o, o', goal, range, body, st);
  }

  lemma {:induction false} LeadsLoopLocal(o: Oracle, o': Oracle, goal: Goal, range: Expr, body: Prog, st: State)
    requires var s := Loop(range, body);
             && WfStmt(s) && st.status.Running? && LeadsStmt(o, goal, s, st)
             && Alike(o, o', |st.trace|, |MeaningStmt(o, s, st).trace|)
    ensures LeadsStmt(o', goal, Loop(range, body), st)
    decreases body, 2
  {
    hide Alike, Meaning, Leads, Wf, Passes;
    var lo, hi, t := |st.trace|, |MeaningStmt(o, Loop(range, body), st).trace|, st.trace + [Append];
    var items := ItemsOf(o, range, st).value;
    var st1 := AfterRange(o, range, st);
    if items != [] {
      LongEnough(o, range, body, items, st1);
    }
    AlikePart(o, o', lo, hi, |t|, hi);
    AlikeItems(o, o', t, range, hi);
    AlikeEvaluate(o, o', t, range, [], hi);
    if items != [] {
      var bound := st1.Emit(Binds(range, items[0]));
      if Passes(o, body, bound) { PassesLocal(o, o', body, bound, lo, hi); }
      if Leads(o, ToInner, body, bound) { LeadsPartLocal(o, o', ToInner, body, bound, lo, hi); }
      if Leads(o, ToDrop, body, bound) { LeadsPartLocal(o, o', ToDrop, body, bound, lo, hi); }
      if Leads(o, ToDeep, body, bound) { LeadsPartLocal(o, o', ToDeep, body, bound, lo, hi); }
    }
  }

  /** The first iteration of a range is part of it. */
  lemma LongEnough(o: Oracle, range: Expr, body: Prog, items: seq<Item>, st: State)
    requires Wf(body) && |range.params| >= 3 && items != [] && st.status.Running?
    ensures var bound := st.Emit(Binds(range, items[0]));
            |bound.trace| <= |Meaning(o, body, bound).trace| <= |Iterate(o, range, body, items, 0, st).trace|
  {
    hide Meaning;
    var bound := st.Emit(Binds(range, items[0]));
    MeaningFollows(o, body, bound);
    var after := Finish(Meaning(o, body, bound), EndEvents);
    if after.status.Running? && |items| > 1 {
      IterateFollows(o, range, body, items, 1, after.Emit([Append]));
    }
  }

  lemma {:induction false} LeadsPartLocal(o: Oracle, o': Oracle, goal: Goal, p: Prog, st: State, lo: nat, hi: nat)
    requires Wf(p) && st.status.Running? && Leads(o, goal, p, st)
    requires Alike(o, o', lo, hi) && lo <= |st.trace| && |Meaning(o, p, st).trace| <= hi
    ensures Leads(o', goal, p, st) && |st.trace| <= |Meaning(o, p, st).trace|
    decreases p, 1
  {
    MeaningFollows(o, p, st);
    AlikePart(o, o', lo, hi, |st.trace|, |Meaning(o, p, st).trace|);
    LeadsLocal(o, o', goal, p, st);
  }

  lemma {:induction false} LeadsLocal(o: Oracle, o': Oracle, goal: Goal, p: Prog, st: State)
    requires Wf(p) && st.status.Running? && Leads(o, goal, p, st)
    requires Alike(o, o', |st.trace|, |Meaning(o, p, st).trace|)
    ensures Leads(o', goal, p, st)
    decreases p, 0
  {
    hide Alike, MeaningStmt, LeadsStmt, Passes, WfStmt, FailsOn;
    var s, tail, lo, hi := p.head, p.tail, |st.trace|, |Meaning(o, p, st).trace|;
    var st1 := MeaningStmt(o, s, st);
    StmtFollows(o, s, st);
    if st1.status.Running? { MeaningFollows(o, tail, st1); }
    AlikePart(o, o', lo, hi, lo, |st1.trace|);
    StmtLocal(o, o', s, st);
    if PassesStmt(o, s, st) && Leads(o, goal, tail, st1) {
      FailsLocal(o, o', lo, |st1.trace|);
      LeadsPartLocal(o, o', goal, tail, st1, lo, hi);
    } else {
      LeadsStmtLocal(o, o', goal, s, st);
      if goal.ToDrop? { PassesLocal(o, o', tail, st1, lo, hi); }
    }
  }

  // ----- Leading a run astray -----

  /** What a program that is not Sound at a level can be led to. */
  predicate Fits(level: Level, goal: Goal) {
    match level
    case Outside => goal.ToOuter?
    case Inside(ends) => goal.ToInner? || (ends && goal.ToDrop?)
    case Deeper => goal.ToDeep?
    case Failing => false
  }

  /** Expressions succeed and every range has these items. */
  function GiveAll(items: seq<Item>): Oracle {
    Oracle((t, e, input) => Outcome([Other(0)], false), (t, e, input) => Some(items))
  }

  /** Gives a range its items, then goes on as o. */
  lemma GiveThen(items: seq<Item>, range: Expr, st: State, o: Oracle) returns (o': Oracle)
    requires range.func.Range?
    ensures ItemsOf(o', range, st) == Some(items) && AfterRange(o', range, st) == AfterRange(GiveAll(items), range, st)
    ensures forall lo: nat, hi: nat :: |st.trace| + 2 <= lo ==> Alike(o, o', lo, hi)
  {
    o' := Patch(GiveAll(items), |st.trace| + 2, o);
    PatchAlike(GiveAll(items), |st.trace| + 2, o);
  }

  const OneItem := [Item("0", Other(0))]
  const TwoItems := [Item("0", Other(0)), Item("1", Other(1))]

  lemma {:induction false} LeadLoop(range: Expr, body: Prog, st: State, level: Level) returns (o: Oracle, goal: Goal)
    requires WfStmt(Loop(range, body)) && st.status.Running? && !level.Failing? && !SoundStmt(Loop(range, body), level)
    ensures LeadsStmt(o, goal, Loop(range, body), st) && Fits(level, goal)
    ensures goal.ToDrop? ==> MeaningStmt(o, Loop(range, body), st).status.Running?
    decreases body, 2
  {
    hide Meaning, Leads, Alike, Sound, Passes, Iterate, Wf;
    if level.Outside? {
      var bound := AfterRange(GiveAll(TwoItems), range, st).Emit(Binds(range, TwoItems[0]));
      var o2, goal2 := LeadProg(body, bound, Inside(true));
      o := GiveThen(TwoItems, range, st, o2);
      LeadsLocal(o2, o, goal2, body, bound);
      goal := ToOuter;
    } else if level.Inside? && (CanFinish(body) || !Sound(body, Deeper)) {
      var bound := AfterRange(GiveAll(OneItem), range, st).Emit(Binds(range, OneItem[0]));
      goal := ToInner;
      if CanFinish(body) {
        var o2 := MeaningFinishes(body, bound);
        o := GiveThen(OneItem, range, st, o2);
        BarrenPasses(o2, body, bound);
        PassesLocal(o2, o, body, bound, |bound.trace|, |Meaning(o2, body, bound).trace|);
      } else {
        var o2, goal2 := LeadProg(body, bound, Deeper);
        o := GiveThen(OneItem, range, st, o2);
        LeadsLocal(o2, o, goal2, body, bound);
      }
    } else {
      o := GiveAll([]);
      goal := if level.Inside? then ToDrop else ToDeep;
    }
  }

  lemma BarrenPasses(o: Oracle, p: Prog, st: State)
    requires Wf(p) && Barren(o) && Meaning(o, p, st).status.Running?
    ensures Passes(o, p, st)
  {
  }

  /** A block: its header row, then the part that is not Sound. */
  lemma {:induction false} LeadPart(h: Row, part: Prog, st: State, level: Level, pass: bool) returns (o: Oracle, goal: Goal)
    requires HeaderRow(h) && Wf(part) && st.status.Running? && !level.Failing? && !Sound(part, level)
    requires if pass then CanPass(h, 0) else CanSkip(h, 0)
    ensures var r := Chain(o, h, 0, true, st.trace + [Append], []);
            && (if pass then r.Passed? else r.Skipped?)
            && Leads(o, goal, part, st.(trace := r.trace)) && Fits(level, goal)
            && (goal.ToDrop? ==> Meaning(o, part, st.(trace := r.trace)).status.Running?)
    decreases part, 1
  {
    hide Chain, Meaning, Leads, Alike, Sound, Wf, HeaderRow;
    var t := st.trace + [Append];
    var o1 := Heads(h, t, pass);
    var st1 := st.(trace := Chain(o1, h, 0, true, t, []).trace);
    var o2, goal2 := LeadProg(part, st1, level);
    goal := goal2;
    o := HeadThen(o1, h, t, o2);
    LeadsLocal(o2, o, goal, part, st1);
    if goal.ToDrop? { DropRuns(o, part, st1); }
  }

  lemma {:induction false} LeadStmt(s: Stmt, st: State, level: Level) returns (o: Oracle, goal: Goal)
    requires WfStmt(s) && st.status.Running? && !level.Failing? && !SoundStmt(s, level)
    ensures LeadsStmt(o, goal, s, st) && Fits(level, goal)
    ensures goal.ToDrop? ==> MeaningStmt(o, s, st).status.Running?
    decreases s, 3
  {
    hide Chain, Meaning, Leads, Sound, Wf, HeaderRow;
    match s
    case Guard(h, body) =>
      o, goal := LeadPart(h, body, st, level, true);
    case GuardElse(h, body, els) =>
      var pass := CanPass(h, 0) && !Sound(body, level);
      o, goal := LeadPart(h, if pass then body else els, st, level, pass);
    case Loop(range, body) =>
      o, goal := LeadLoop(range, body, st, level);
  }

  lemma {:induction false} LeadProg(p: Prog, st: State, level: Level) returns (o: Oracle, goal: Goal)
    requires Wf(p) && st.status.Running? && !level.Failing? && !Sound(p, level)
    ensures Leads(o, goal, p, st) && Fits(level, goal)
    decreases p, 0
  {
    hide MeaningStmt, LeadsStmt, Alike, SoundStmt, WfStmt, Passes;
    var s, tail := p.head, p.tail;
    if SoundStmt(s, Then(level, tail)) {
      var o1 := StmtFinishes(s, st);
      var st1 := MeaningStmt(o1, s, st);
      var o2, goal2 := LeadProg(tail, st1, level);
      goal := goal2;
      o := StmtThen(o1, s, st, o2);
      LeadsLocal(o2, o, goal, tail, st1);
      BarrenBelow(o1, |st1.trace|, o2, |st.trace|);
    } else {
      var o1, goal1 := LeadStmt(s, st, Then(level, tail));
      o, goal := o1, goal1;
      if goal.ToDrop? {
        var st1 := MeaningStmt(o1, s, st);
        var o2 := MeaningFinishes(tail, st1);
        o := StmtThen(o1, s, st, o2);
        BarrenPasses(o2, tail, st1);
        PassesLocal(o2, o, tail, st1, |st1.trace|, |Meaning(o2, tail, st1).trace|);
        PatchAlike(o1, |st1.trace|, o2);
        LeadsStmtLocal(o1, o, goal, s, st);
      }
    }
  }

  lemma BarrenBelow(o: Oracle, n: nat, o': Oracle, lo: nat)
    requires Barren(o)
    ensures FailsOn(Patch(o, n, o'), lo, n)
  {
  }

  // ----- The theorem -----

  lemma MissedIsWrong(o: Oracle, p: Prog)
    requires Wf(p) && Misses(Image(o, Flat(p), Table(p)), Start, Meaning(o, p, State([], 0, Running)).trace)
    ensures !RunsRight(o, p)
  {
    hide Run, Meaning, Table;
    var c := Image(o, Flat(p), Table(p));
    forall n: nat
      ensures Run(o, Flat(p), Table(p), Start, n) == c.Go(Start, n)
    {
    }
  }

  /** The machine runs a program right, whatever expressions return, if and only if it is Sound. */
  lemma SoundIff(p: Prog)
    requires Wf(p)
    ensures Sound(p, Outside) <==> forall o :: RunsRight(o, p)
  {
    hide Sound, Run, Meaning, LinkAll, Leads;
    if Sound(p, Outside) {
      forall o
        ensures RunsRight(o, p)
      {
        CompilerCorrect(o, p);
      }
    } else {
      var o, goal := LeadProg(p, State([], 0, Running), Outside);
      LedAstray(o, p);
      MissedIsWrong(o, p);
    }
  }

  // ----- Programs all of whose parts can be reached -----

  predicate AllReachedStmt(s: Stmt) {
    match s
    case Line(row) => CanPass(row, 0)
    case Guard(h, body) => CanPass(h, 0) && AllReached(body)
    case GuardElse(h, body, els) => CanPass(h, 0) && CanSkip(h, 0) && AllReached(body) && AllReached(els)
    case Loop(_, body) => AllReached(body)
  }

  /** No row returns or suspends, and the header of a block with an "else" can fail. */
  predicate AllReached(p: Prog) {
    p.Cons? ==> AllReachedStmt(p.head) && AllReached(p.tail)
  }

  lemma {:induction false} ReachedStmtFinishes(s: Stmt)
    requires AllReachedStmt(s)
    ensures CanFinishStmt(s)
    decreases s
  {
    match s
    case Line(_) =>
    case Guard(_, body) => ReachedFinishes(body);
    case GuardElse(_, body, _) => ReachedFinishes(body);
    case Loop(_, _) =>
  }

  lemma {:induction false} ReachedFinishes(p: Prog)
    requires AllReached(p)
    ensures CanFinish(p)
    decreases p
  {
    if p.Cons? {
      ReachedStmtFinishes(p.head);
      ReachedFinishes(p.tail);
    }
  }

  /** In the body of a range no range at all is allowed; outside of ranges none inside another one. */
  lemma {:induction false} UnnestedStmtSound(s: Stmt, level: Level)
    requires level.Outside? || level.Inside? || level.Deeper?
    ensures (if level.Outside? then UnnestedStmt(s) else LoopFreeStmt(s)) ==> SoundStmt(s, level)
    ensures AllReachedStmt(s) && (level.Outside? || level == Inside(true)) && SoundStmt(s, level) ==>
            if level.Outside? then UnnestedStmt(s) else LoopFreeStmt(s)
    decreases s
  {
    match s
    case Line(_) =>
    case Guard(_, body) => UnnestedSound(body, level);
    case GuardElse(_, body, els) => UnnestedSound(body, level); UnnestedSound(els, level);
    case Loop(_, body) => UnnestedSound(body, Inside(true));
  }

  lemma {:induction false} UnnestedSound(p: Prog, level: Level)
    requires level.Outside? || level.Inside? || level.Deeper?
    ensures (if level.Outside? then Unnested(p) else LoopFree(p)) ==> Sound(p, level)
    ensures AllReached(p) && (level.Outside? || level == Inside(true)) && Sound(p, level) ==>
            if level.Outside? then Unnested(p) else LoopFree(p)
    decreases p
  {
    if p.Cons? {
      UnnestedStmtSound(p.head, Then(level, p.tail));
      UnnestedSound(p.tail, level);
      if AllReached(p) {
        ReachedStmtFinishes(p.head);
        ReachedFinishes(p.tail);
      }
    }
  }

  /** Every program without nested ranges is Sound; where all parts can be reached, it is these that the
      machine runs right, and no others. */
  lemma UnnestedIff(p: Prog)
    requires Wf(p)
    ensures Unnested(p) ==> Sound(p, Outside)
    ensures AllReached(p) ==> (Unnested(p) <==> forall o :: RunsRight(o, p))
  {
    hide RunsRight;
    UnnestedSound(p, Outside);
    SoundIff(p);
  }

  // ----- Instances -----

  const Outer := Expr(Range, ["outer", "k", "v"])
  const Inner := Expr(Range, ["inner", "i", "w"])
  const After := Expr(Call("f"), [])

  const InnerLoop := Loop(Inner, Nil)
  const LastRow := Cons(Line([After]), Nil)

  /** A range around a range, and the rows behind the inner one. */
  function Nested(rest: Prog): Prog {
    Cons(Loop(Outer, Cons(InnerLoop, rest)), Nil)
  }

  /** The outer range has two elements, the inner one as many as given. */
  function Around(items: seq<Item>): Oracle {
    Oracle((t, e, input) => Outcome([Other(0)], false),
           (t, e, input) => if e == Outer then Some(TwoItems) else Some(items))
  }

  lemma NestedRows(rest: Prog)
    ensures Flat(Cons(InnerLoop, rest)) == [[Inner], [EndExpr]] + Flat(rest)
    ensures Flat(Nested(rest)) == [[Outer], [Inner], [EndExpr]] + Flat(rest) + [[EndExpr]]
  {
    var body := Cons(InnerLoop, rest);
    assert Flat(Nil) == [] && FlatStmt(InnerLoop) == [[Inner], [EndExpr]];
    assert Flat(body) == [[Inner], [EndExpr]] + Flat(rest);
    assert Flat(Nested(rest)) == FlatStmt(Loop(Outer, body)) + Flat(Nil);
  }

  lemma NestedLinks(rest: Prog)
    requires Wf(rest)
    ensures Wf(Nested(rest)) && Flat(Nested(rest)) == [[Outer], [Inner], [EndExpr]] + Flat(rest) + [[EndExpr]]
    ensures var j := Table(Nested(rest)); 0 in j && j[0] == 3 + |Flat(rest)| && 1 in j && j[1] == 2
  {
    hide LinkAll, Table, Flat;
    var body := Cons(InnerLoop, rest);
    assert WfStmt(InnerLoop) && Wf(body);
    NestedRows(rest);
    BuildLinksProgram(Nested(rest));
    TableOf(Nested(rest));
    NilFlat();
    var j := Table(Nested(rest));
    assert Linked(Nested(rest), 0, j);
    assert LinkedStmt(Loop(Outer, body), 0, j);
    assert Linked(body, 1, j);
    assert LinkedStmt(InnerLoop, 1, j);
  }

  lemma NilFlat()
    ensures Flat(Nil) == []
  {
  }

  lemma TableOf(p: Prog)
    requires LinkAll(Flat(p), 0, NoLinks).Built?
    ensures Table(p) == LinkAll(Flat(p), 0, NoLinks).links.jumps
  {
  }

  /** The machine in the first iteration of the outer range. */
  function FirstRow(end: nat): Machine {
    var t := [Append, Eval(Outer, [], Outcome([Other(0)], false))] + Binds(Outer, TwoItems[0]);
    Machine(1, [Cell(Outer, TwoItems, 0, end, 1)], Some(0), [0], [], t, Running)
  }

  lemma NestedBegins(c: Image, items: seq<Item>, rest: Prog)
    requires Wf(rest) && c == Image(Around(items), Flat(Nested(rest)), Table(Nested(rest)))
    ensures c.Go(Start, 1) == FirstRow(3 + |Flat(rest)|)
  {
    hide Run, StepRow, Flat, Table;
    NestedLinks(rest);
    RangeRuns(c, Start, 0, Outer, 3 + |Flat(rest)|);
    GoOne(c, Start);
  }

  /** An inner range with an element: when it ends, the outer range starts its second element, and the
      row behind the inner range has not been run for the first one. */
  lemma NestedRangeRestarts()
    ensures var p := Nested(LastRow);
            && Wf(p) && !RunsRight(Around(OneItem), p)
            && var r := Run(Around(OneItem), Flat(p), Table(p), Start, 3);
            && r.status.Running? && r.idx == 1 && Bind("k", Str("1")) in r.trace
            && forall i :: 0 <= i < |r.trace| && r.trace[i].Eval? ==> r.trace[i].expr != After
  {
    hide Run, Flat, Table, RunsRight, Misses, Meaning, Leads;
    var p := Nested(LastRow);
    NestedLinks(LastRow);
    RestartRun(Image(Around(OneItem), Flat(p), Table(p)));
    LeadsRestart(LastRow);
    LedAstray(Around(OneItem), p);
    MissedIsWrong(Around(OneItem), p);
  }

  /** The trace of the first two rows, up to the first element of the inner range. */
  function TwoRows(): Trace {
    var ok := Outcome([Other(0)], false);
    [Append, Eval(Outer, [], ok)] + Binds(Outer, TwoItems[0]) + [Append, Eval(Inner, [], ok)] + Binds(Inner, OneItem[0])
  }

  lemma RestartRun(c: Image)
    requires var p := Nested(LastRow); c == Image(Around(OneItem), Flat(p), Table(p))
    ensures var r := c.Go(Start, 3);
            && r.status.Running? && r.idx == 1 && Bind("k", Str("1")) in r.trace
            && forall i :: 0 <= i < |r.trace| && r.trace[i].Eval? ==> r.trace[i].expr != After
  {
    hide Run, StepRow, Flat, Table;
    NestedLinks(LastRow);
    var m2 := InnerBegins(c, LastRow);
    EndRestarts(c, m2, 2, 1);
    GoOne(c, m2);
    GoThen(c, Start, 2, 1);
    var r := c.Go(Start, 3);
    assert r.trace == TwoRows() + EndEvents + [Pop, Append] + Binds(Outer, TwoItems[1]);
    assert r.trace[|r.trace| - 2] == Bind("k", Str("1"));
  }

  lemma InnerBegins(c: Image, rest: Prog) returns (m: Machine)
    requires Wf(rest) && c == Image(Around(OneItem), Flat(Nested(rest)), Table(Nested(rest)))
    ensures var v, w := Cell(Outer, TwoItems, 0, 3 + |Flat(rest)|, 1), Cell(Inner, OneItem, 1, 2, 1);
            m == c.Go(Start, 2) == Machine(2, [v, w], Some(1), [0, 1], [], TwoRows(), Running)
  {
    hide Run, StepRow, Flat, Table;
    NestedLinks(rest);
    NestedBegins(c, OneItem, rest);
    var m1 := c.Go(Start, 1);
    RangeRuns(c, m1, 1, Inner, 2);
    GoOne(c, m1);
    GoThen(c, Start, 1, 1);
    m := c.Go(Start, 2);
    var t := m1.trace + [Append];
    assert t + [Eval(Inner, [], c.o.Evaluate(t, Inner, []))] + Binds(Inner, OneItem[0]) == TwoRows();
  }

  lemma LeadsRestart(rest: Prog)
    requires Wf(rest) && Wf(Nested(rest))
    ensures Leads(Around(OneItem), ToOuter, Nested(rest), State([], 0, Running))
  {
    hide Meaning, MeaningStmt;
    var o, st := Around(OneItem), State([], 0, Running);
    var bound := AfterRange(o, Outer, st).Emit(Binds(Outer, TwoItems[0]));
    var inner := AfterRange(o, Inner, bound).Emit(Binds(Inner, OneItem[0]));
    NilMeans(o, inner);
    assert LeadsStmt(o, ToInner, InnerLoop, bound);
    assert Leads(o, ToInner, Cons(InnerLoop, rest), bound);
    assert LeadsStmt(o, ToOuter, Nested(rest).head, st);
  }

  lemma NilMeans(o: Oracle, st: State)
    ensures Meaning(o, Nil, st) == st
  {
  }

  /** An inner range over nothing: when it ends, the outer range is forgotten, and its second element is
      never bound. */
  lemma NestedRangeStopsEarly()
    ensures var p := Nested(Nil);
            && Wf(p) && !RunsRight(Around([]), p)
            && var r := Run(Around([]), Flat(p), Table(p), Start, 4);
            !Live(Flat(p), r) && r.status.Running? && Bind("k", Str("1")) !in r.trace
  {
    hide Run, Flat, Table, RunsRight, Misses, Meaning, Leads;
    var p := Nested(Nil);
    NestedLinks(Nil);
    DropRun(Image(Around([]), Flat(p), Table(p)));
    LeadsDrop();
    LedAstray(Around([]), p);
    MissedIsWrong(Around([]), p);
  }

  lemma DropRun(c: Image)
    requires var p := Nested(Nil); c == Image(Around([]), Flat(p), Table(p))
    ensures var r := c.Go(Start, 4);
            !Live(c.rows, r) && r.status.Running? && Bind("k", Str("1")) !in r.trace
  {
    hide Run, StepRow, Flat, Table;
    NestedLinks(Nil);
    NilFlat();
    NestedBegins(c, [], Nil);
    var m1 := c.Go(Start, 1);
    var m2 := EmptyRuns(c, m1);
    EndRuns(c, m2, 3);
    GoOne(c, m2);
    GoThen(c, Start, 1, 2);
    GoThen(c, Start, 3, 1);
  }

  /** The two rows of the inner range over nothing. */
  lemma EmptyRuns(c: Image, m: Machine) returns (m2: Machine)
    requires var p := Nested(Nil); c == Image(Around([]), Flat(p), Table(p))
    requires m == FirstRow(3)
    ensures m2 == c.Go(m, 2) && Before(m2, 3) && m2.current == None
    ensures m2.trace == m.trace + [Append, Eval(Inner, [], Outcome([Other(0)], false))] + EndEvents
  {
    hide Run, StepRow, Flat, Table;
    NestedLinks(Nil);
    NilFlat();
    RangeRuns(c, m, 1, Inner, 2);
    GoOne(c, m);
    var m1 := c.Go(m, 1);
    EndRunsLast(c, m1, 2, 1);
    GoOne(c, m1);
    GoThen(c, m, 1, 1);
    m2 := c.Go(m, 2);
    assert m.trace + [Append] + [Eval(Inner, [], Outcome([Other(0)], false))] + EndEvents == m2.trace;
  }

  lemma LeadsDrop()
    requires Wf(Nested(Nil))
    ensures Leads(Around([]), ToOuter, Nested(Nil), State([], 0, Running))
  {
    hide Meaning;
    var o, st := Around([]), State([], 0, Running);
    var bound := AfterRange(o, Outer, st).Emit(Binds(Outer, TwoItems[0]));
    NilMeans(o, MeaningStmt(o, InnerLoop, bound));
    assert LeadsStmt(o, ToDrop, InnerLoop, bound);
    assert Leads(o, ToDrop, Cons(InnerLoop, Nil), bound);
    assert LeadsStmt(o, ToOuter, Nested(Nil).head, st);
  }
}
