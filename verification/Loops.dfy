/**
  When a template without a range can run forever.

  The rows that may follow a row, whatever the expressions yield, form a graph that can be read off the
  rows and the jump table. Every run stops exactly when no row without the jump it needs lies on a cycle
  of that graph that the first row leads to.
 */
module Loops {
  import opened Common
  import opened Template
  import opened Runtime

  // ----- The rows that may follow a row -----

  /** Some outcome of the expression lets the row go on. */
  predicate Passable(e: Expr) {
    !e.func.Return? && !e.func.SendSync? && !e.func.Else?
  }

  /** Some outcome of the expression leaves the row for its jump target. */
  predicate Leavable(e: Expr) {
    && !e.func.End? && !e.func.Send? && !e.func.SendSync? && !e.func.Return? && !e.func.Else?
    && (Formless(e) ==> |e.params| == 2)
  }

  /** The first k expressions can all be passed. */
  predicate PassableTo(row: Row, k: nat)
    requires k <= |row|
  {
    forall i :: 0 <= i < k ==> Passable(row[i])
  }

  predicate CanLeave(row: Row) {
    exists k :: 0 <= k < |row| && Leavable(row[k]) && PassableTo(row, k)
  }

  /** A condition that can be false. */
  predicate Deciding(row: Row) {
    row != [] && row[0].func.If? && !Formless(row[0])
  }

  predicate StartsWithElse(row: Row) {
    row != [] && row[0].func.Else?
  }

  /** Row j may follow row i. */
  predicate Edge(rows: seq<Row>, jumps: map<nat, nat>, i: nat, j: nat) {
    i < |rows| &&
    var row := rows[i];
    || (j == i + 1 && PassableTo(row, |row|))
    || (i in jumps && j == jumps[i] + 1 && CanLeave(row))
    || (StartsWithElse(row) && j == Jump(jumps, i))
    || (Deciding(row) && i !in jumps && j == 1)
  }

  ghost predicate Path(rows: seq<Row>, jumps: map<nat, nat>, p: seq<nat>) {
    p != [] && forall k :: 0 <= k < |p| - 1 ==> Edge(rows, jumps, p[k], p[k + 1])
  }

  ghost predicate LeadsTo(rows: seq<Row>, jumps: map<nat, nat>, i: nat, j: nat) {
    exists p :: Path(rows, jumps, p) && p[0] == i && p[|p| - 1] == j
  }

  /** The row that follows a row without the jump it needs: the first, or the second after an "if". */
  function Back(rows: seq<Row>, b: nat): nat
    requires b < |rows|
  {
    if StartsWithElse(rows[b]) then 0 else 1
  }

  /** Row b lacks the jump it needs, can be reached, and can be reached again from the row it is sent
      back to. */
  ghost predicate Recurs(rows: seq<Row>, jumps: map<nat, nat>, b: nat) {
    b < |rows| && !GoesForward(rows, jumps, b) && LeadsTo(rows, jumps, 0, b) && LeadsTo(rows, jumps, Back(rows, b), b)
  }

  /** A template as parsing and Build leave it, without a range. */
  ghost predicate Flat(rows: seq<Row>, jumps: map<nat, nat>) {
    && IsBuilt(rows, jumps)
    && forall k :: 0 <= k < |rows| ==> Parsed(rows[k]) && RangeFree(rows[k])
  }

  lemma FlatIsForward(rows: seq<Row>, jumps: map<nat, nat>)
    requires Flat(rows, jumps)
    ensures Forward(jumps)
  {
    LinkAllKeepsOk(rows, 0, NoLinks);
  }

  /** A machine about to run row i, with no range under way. */
  predicate Before(rows: seq<Row>, m: Machine, i: nat) {
    m.Ok() && m.current.None? && m.status.Running? && m.idx == i
  }

  // ----- A run follows the edges -----

  lemma ExprLeads(o: Oracle, jumps: map<nat, nat>, m: Machine, e: Expr)
    requires Forward(jumps) && m.Ok() && m.current.None? && m.status.Running? && m.idx >= 0 && !e.func.Range?
    ensures var f := StepExpr(o, jumps, m, e);
            && f.m.current.None?
            && (!f.leave ==> f.m.idx == m.idx && f.m.status.Running? && Passable(e))
            && (f.leave && f.m.status.Running? ==>
                  || (m.idx in jumps && f.m.idx == jumps[m.idx] && Leavable(e))
                  || (e.func.Else? && f.m.idx == Jump(jumps, m.idx) - 1)
                  || (e.func.If? && !Formless(e) && m.idx !in jumps && f.m.idx == 0))
  {
  }

  lemma {:induction false} ExprsLead(o: Oracle, rows: seq<Row>, jumps: map<nat, nat>, m: Machine, i: nat, k: nat)
    requires Forward(jumps) && Before(rows, m, i) && i < |rows| && k <= |rows[i]|
    requires Parsed(rows[i]) && RangeFree(rows[i]) && PassableTo(rows[i], k)
    ensures var r := StepExprs(o, jumps, m, rows[i], k);
            r.current.None? && (r.status.Running? ==> r.idx >= -1 && Edge(rows, jumps, i, r.idx + 1))
    decreases |rows[i]| - k
  {
    hide StepExpr, Formless, Jump;
    var row := rows[i];
    if k < |row| {
      var f := StepExpr(o, jumps, m, row[k]);
      ExprLeads(o, jumps, m, row[k]);
      if !f.leave {
        ExprsLead(o, rows, jumps, f.m, i, k + 1);
      } else if f.m.status.Running? && i in jumps && f.m.idx == jumps[i] && Leavable(row[k]) {
        assert CanLeave(row);
      }
    }
  }

  lemma RowLeads(o: Oracle, rows: seq<Row>, jumps: map<nat, nat>, m: Machine, i: nat)
    requires Flat(rows, jumps) && i < |rows| && Before(rows, m, i)
    ensures var r := StepRow(o, rows, jumps, m);
            r.current.None? && (r.status.Running? ==> r.idx >= 0 && Edge(rows, jumps, i, r.idx) && Before(rows, r, r.idx))
  {
    hide IsBuilt, StepExprs, Edge, Parsed, RangeFree, HasOpen, Forward;
    FlatIsForward(rows, jumps);
    ExprsLead(o, rows, jumps, if HasOpen(rows[i]) then m.Emit([Append]) else m, i, 0);
  }

  // ----- Without a recurring row every run stops -----

  /** The rows without the jump they need that row i leads to. */
  ghost function Lacking(rows: seq<Row>, jumps: map<nat, nat>, i: nat): set<nat> {
    set b | 0 <= b < |rows| && !GoesForward(rows, jumps, b) && LeadsTo(rows, jumps, i, b)
  }

  lemma Here(rows: seq<Row>, jumps: map<nat, nat>, i: nat)
    ensures LeadsTo(rows, jumps, i, i)
  {
    assert Path(rows, jumps, [i]);
  }

  lemma EdgeFirst(rows: seq<Row>, jumps: map<nat, nat>, i: nat, j: nat, b: nat)
    requires Edge(rows, jumps, i, j) && LeadsTo(rows, jumps, j, b)
    ensures LeadsTo(rows, jumps, i, b)
  {
    hide Edge;
    var p :| Path(rows, jumps, p) && p[0] == j && p[|p| - 1] == b;
    assert Path(rows, jumps, [i] + p);
  }

  lemma EdgeLast(rows: seq<Row>, jumps: map<nat, nat>, a: nat, i: nat, j: nat)
    requires LeadsTo(rows, jumps, a, i) && Edge(rows, jumps, i, j)
    ensures LeadsTo(rows, jumps, a, j)
  {
    hide Edge;
    var p :| Path(rows, jumps, p) && p[0] == a && p[|p| - 1] == i;
    assert Path(rows, jumps, p + [j]);
  }

  lemma EdgeShrinks(rows: seq<Row>, jumps: map<nat, nat>, i: nat, j: nat)
    requires Edge(rows, jumps, i, j)
    ensures Lacking(rows, jumps, j) <= Lacking(rows, jumps, i)
  {
    hide Edge, LeadsTo, GoesForward;
    forall b | b in Lacking(rows, jumps, j)
      ensures b in Lacking(rows, jumps, i)
    {
      EdgeFirst(rows, jumps, i, j, b);
    }
  }

  /** Only a row without the jump it needs is followed by an earlier one, or by itself. */
  lemma OnlyLackingGoBack(rows: seq<Row>, jumps: map<nat, nat>, i: nat, j: nat)
    requires Forward(jumps) && Edge(rows, jumps, i, j) && j <= i
    ensures !GoesForward(rows, jumps, i) && j == Back(rows, i)
  {
  }

  lemma LackingGoBack(rows: seq<Row>, jumps: map<nat, nat>, b: nat)
    requires b < |rows| && !GoesForward(rows, jumps, b)
    ensures Edge(rows, jumps, b, Back(rows, b))
  {
  }

  /** Following an edge, the rows behind become fewer, or they stay the same and the row is a later one. */
  lemma EdgeProgress(rows: seq<Row>, jumps: map<nat, nat>, i: nat, j: nat)
    requires Forward(jumps) && Edge(rows, jumps, i, j) && LeadsTo(rows, jumps, 0, i) && !Recurs(rows, jumps, i)
    ensures Lacking(rows, jumps, j) < Lacking(rows, jumps, i) || (Lacking(rows, jumps, j) == Lacking(rows, jumps, i) && i < j)
  {
    EdgeShrinks(rows, jumps, i, j);
    if j <= i {
      OnlyLackingGoBack(rows, jumps, i, j);
      Here(rows, jumps, i);
      hide Edge, LeadsTo, GoesForward, Forward;
      assert i in Lacking(rows, jumps, i);
      assert i !in Lacking(rows, jumps, j);
    }
  }

  ghost predicate Stops(o: Oracle, rows: seq<Row>, jumps: map<nat, nat>, m: Machine)
    requires m.Ok()
  {
    exists n: nat :: !Live(rows, Run(o, rows, jumps, m, n))
  }

  lemma StopsHere(o: Oracle, rows: seq<Row>, jumps: map<nat, nat>, m: Machine)
    requires m.Ok() && !Live(rows, m)
    ensures Stops(o, rows, jumps, m)
  {
    assert Run(o, rows, jumps, m, 0) == m;
  }

  lemma StopsNext(o: Oracle, rows: seq<Row>, jumps: map<nat, nat>, m: Machine)
    requires m.Ok() && Live(rows, m) && Stops(o, rows, jumps, StepRow(o, rows, jumps, m))
    ensures Stops(o, rows, jumps, m)
  {
    hide StepRow;
    var n: nat :| !Live(rows, Run(o, rows, jumps, StepRow(o, rows, jumps, m), n));
    assert Run(o, rows, jumps, m, n + 1) == Run(o, rows, jumps, StepRow(o, rows, jumps, m), n);
  }

  lemma {:induction false} StopsFrom(o: Oracle, rows: seq<Row>, jumps: map<nat, nat>, m: Machine, i: nat)
    requires Flat(rows, jumps) && Before(rows, m, i) && LeadsTo(rows, jumps, 0, i)
    requires forall b: nat :: !Recurs(rows, jumps, b)
    ensures Stops(o, rows, jumps, m)
    decreases Lacking(rows, jumps, i), if i < |rows| then |rows| - i else 0
  {
    hide StepRow, Flat, Edge, LeadsTo, GoesForward, Forward, Stops, Lacking, Recurs;
    if i >= |rows| {
      StopsHere(o, rows, jumps, m);
    } else {
      FlatIsForward(rows, jumps);
      RowLeads(o, rows, jumps, m, i);
      var r := StepRow(o, rows, jumps, m);
      if !r.status.Running? {
        StopsHere(o, rows, jumps, r);
      } else {
        EdgeLast(rows, jumps, 0, i, r.idx);
        EdgeProgress(rows, jumps, i, r.idx);
        StopsFrom(o, rows, jumps, r, r.idx);
      }
      StopsNext(o, rows, jumps, m);
    }
  }

  // ----- A recurring row makes a run that never stops -----

  const Passing := Outcome([Other(0)], false)

  /** An outcome for the expressions of row i that leads to row j. */
  function Answer(rows: seq<Row>, jumps: map<nat, nat>, i: nat, j: nat, e: Expr): Outcome
    requires i < |rows|
  {
    if i in jumps && j == jumps[i] + 1 then if Leavable(e) then Outcome([], true) else Passing
    else if j == i + 1 && PassableTo(rows[i], |rows[i]|) then Passing
    else Outcome([Bool(false)], false)
  }

  function Guide(rows: seq<Row>, jumps: map<nat, nat>, i: nat, j: nat): Oracle
    requires i < |rows|
  {
    Oracle((t: Trace, e: Expr, input: seq<Value>) => Answer(rows, jumps, i, j, e), (t, e, input) => None)
  }

  /** The oracle answers Passing, so the expression is passed. */
  lemma ExprPasses(o: Oracle, jumps: map<nat, nat>, m: Machine, e: Expr)
    requires m.Ok() && m.current.None? && m.status.Running? && m.idx >= 0 && !e.func.Range?
    requires Passable(e) && o.eval(m.trace, e, m.input) == Passing
    ensures var f := StepExpr(o, jumps, m, e);
            !f.leave && f.m.current.None? && f.m.status.Running? && f.m.idx == m.idx
  {
  }

  lemma ExprLeaves(o: Oracle, jumps: map<nat, nat>, m: Machine, e: Expr)
    requires m.Ok() && m.current.None? && m.status.Running? && m.idx >= 0 && !e.func.Range?
    requires m.idx in jumps && jumps[m.idx] > 0
    requires Leavable(e) && o.eval(m.trace, e, m.input) == Outcome([], true)
    ensures var f := StepExpr(o, jumps, m, e);
            f.leave && f.m.current.None? && f.m.status.Running? && f.m.idx == jumps[m.idx]
  {
  }

  lemma {:induction false} RowPasses(o: Oracle, jumps: map<nat, nat>, m: Machine, row: Row, k: nat)
    requires m.Ok() && m.current.None? && m.status.Running? && m.idx >= 0 && RangeFree(row)
    requires k <= |row| && PassableTo(row, |row|)
    requires forall t, i, input :: 0 <= i < |row| ==> o.eval(t, row[i], input) == Passing
    ensures var r := StepExprs(o, jumps, m, row, k);
            r.current.None? && r.status.Running? && r.idx == m.idx
    decreases |row| - k
  {
    hide StepExpr;
    if k < |row| {
      ExprPasses(o, jumps, m, row[k]);
      RowPasses(o, jumps, StepExpr(o, jumps, m, row[k]).m, row, k + 1);
    }
  }

  lemma {:induction false} RowLeaves(o: Oracle, jumps: map<nat, nat>, m: Machine, row: Row, k: nat, last: nat)
    requires m.Ok() && m.current.None? && m.status.Running? && m.idx >= 0 && RangeFree(row)
    requires m.idx in jumps && jumps[m.idx] > 0
    requires k <= last < |row| && Leavable(row[last]) && PassableTo(row, last)
    requires forall t, i, input :: 0 <= i < |row| ==>
               o.eval(t, row[i], input) == if Leavable(row[i]) then Outcome([], true) else Passing
    ensures var r := StepExprs(o, jumps, m, row, k);
            r.current.None? && r.status.Running? && r.idx == jumps[m.idx]
    decreases |row| - k
  {
    hide StepExpr, Leavable;
    if Leavable(row[k]) {
      ExprLeaves(o, jumps, m, row[k]);
    } else {
      ExprPasses(o, jumps, m, row[k]);
      RowLeaves(o, jumps, StepExpr(o, jumps, m, row[k]).m, row, k + 1, last);
    }
  }

  /** "else" goes to its target whatever the oracle; a condition without a jump that is false to row 1. */
  lemma FirstExprLeads(o: Oracle, jumps: map<nat, nat>, m: Machine, row: Row)
    requires m.Ok() && m.current.None? && m.status.Running? && m.idx >= 0
    requires StartsWithElse(row) ||
             (Deciding(row) && m.idx !in jumps && o.eval(m.trace, row[0], m.input) == Outcome([Bool(false)], false))
    ensures var r := StepExprs(o, jumps, m, row, 0);
            r.current.None? && r.status.Running? && r.idx + 1 == if StartsWithElse(row) then Jump(jumps, m.idx) else 1
  {
    var f := StepExpr(o, jumps, m, row[0]);
    assert f.leave;
  }

  lemma ExprsFollow(rows: seq<Row>, jumps: map<nat, nat>, m: Machine, i: nat, j: nat)
    requires Forward(jumps) && Edge(rows, jumps, i, j) && Before(rows, m, i) && RangeFree(rows[i])
    ensures var r := StepExprs(Guide(rows, jumps, i, j), jumps, m, rows[i], 0);
            r.current.None? && r.status.Running? && r.idx + 1 == j
  {
    hide StepExprs, Leavable, Passable, RangeFree;
    var row, o := rows[i], Guide(rows, jumps, i, j);
    if StartsWithElse(row) {
      ElseOnly(rows, jumps, i, j);
      FirstExprLeads(o, jumps, m, row);
    } else if i in jumps && j == jumps[i] + 1 {
      var last :| 0 <= last < |row| && Leavable(row[last]) && PassableTo(row, last);
      RowLeaves(o, jumps, m, row, 0, last);
    } else if j == i + 1 && PassableTo(row, |row|) {
      RowPasses(o, jumps, m, row, 0);
    } else {
      FirstExprLeads(o, jumps, m, row);
    }
  }

  /** An "else" row is followed by its target only. */
  lemma ElseOnly(rows: seq<Row>, jumps: map<nat, nat>, i: nat, j: nat)
    requires Edge(rows, jumps, i, j) && StartsWithElse(rows[i])
    ensures j == Jump(jumps, i)
  {
  }

  lemma RowFollows(rows: seq<Row>, jumps: map<nat, nat>, m: Machine, i: nat, j: nat)
    requires Flat(rows, jumps) && Edge(rows, jumps, i, j) && Before(rows, m, i)
    ensures Before(rows, StepRow(Guide(rows, jumps, i, j), rows, jumps, m), j)
  {
    FlatIsForward(rows, jumps);
    hide IsBuilt, StepExprs, Edge, Guide;
    ExprsFollow(rows, jumps, if HasOpen(rows[i]) then m.Emit([Append]) else m, i, j);
  }

  // ----- One oracle for the whole journey -----

  /** A path from row 0 to the recurring row b and one from the row behind it back to it. */
  ghost predicate Lasso(rows: seq<Row>, jumps: map<nat, nat>, p: seq<nat>, q: seq<nat>) {
    && Path(rows, jumps, p) && Path(rows, jumps, q) && p[0] == 0
    && p[|p| - 1] == q[|q| - 1] && Edge(rows, jumps, q[|q| - 1], q[0])
  }

  /** Where the journey is: the machine and the rows that lie ahead, up to the recurring one. */
  datatype Stage = Stage(m: Machine, ahead: seq<nat>)

  function Onward(s: Stage, q: seq<nat>): seq<nat>
    requires s.ahead != []
  {
    if |s.ahead| > 1 then s.ahead[1..] else q
  }

  ghost predicate StageOk(rows: seq<Row>, jumps: map<nat, nat>, q: seq<nat>, s: Stage) {
    && Path(rows, jumps, s.ahead) && q != [] && s.ahead[|s.ahead| - 1] == q[|q| - 1] && q[|q| - 1] < |rows|
    && Before(rows, s.m, s.ahead[0])
  }

  lemma OnwardLeads(rows: seq<Row>, jumps: map<nat, nat>, p: seq<nat>, q: seq<nat>, s: Stage)
    requires Lasso(rows, jumps, p, q) && StageOk(rows, jumps, q, s)
    ensures var next := Onward(s, q);
            && Path(rows, jumps, next) && next[|next| - 1] == q[|q| - 1]
            && s.ahead[0] < |rows| && Edge(rows, jumps, s.ahead[0], next[0])
  {
    if |s.ahead| > 1 {
      assert Edge(rows, jumps, s.ahead[0], s.ahead[1]);
    }
  }

  /** The stage after t rows, each of them under an oracle of its own. */
  ghost function Journey(rows: seq<Row>, jumps: map<nat, nat>, p: seq<nat>, q: seq<nat>, t: nat): (s: Stage)
    requires Flat(rows, jumps) && Lasso(rows, jumps, p, q)
    ensures StageOk(rows, jumps, q, s)
  {
    if t == 0 then
      assert Edge(rows, jumps, q[|q| - 1], q[0]);
      Stage(Start, p)
    else
      var s := Journey(rows, jumps, p, q, t - 1);
      var next := Onward(s, q);
      OnwardLeads(rows, jumps, p, q, s);
      RowFollows(rows, jumps, s.m, s.ahead[0], next[0]);
      Stage(StepRow(Guide(rows, jumps, s.ahead[0], next[0]), rows, jumps, s.m), next)
  }

  lemma EffectsGrow(e: Expr, input: seq<Value>, r: Outcome)
    ensures |Effects(e, input, r)| > 0
  {
  }

  lemma EndGrows(m: Machine)
    requires m.Ok()
    ensures |EndBlock(m).trace| > |m.trace|
  {
  }

  lemma RangeGrows(jumps: map<nat, nat>, m: Machine, e: Expr, items: seq<Item>)
    requires m.Ok()
    ensures |StartRange(jumps, m, e, items).trace| >= |m.trace|
  {
  }

  lemma BranchKeeps(jumps: map<nat, nat>, m: Machine, e: Expr, r: Outcome)
    requires m.Ok()
    ensures Branch(jumps, m, e, r).m.trace == m.trace
  {
  }

  lemma ExprGrows(o: Oracle, jumps: map<nat, nat>, m: Machine, e: Expr)
    requires m.Ok()
    ensures |StepExpr(o, jumps, m, e).m.trace| > |m.trace|
  {
    hide EndBlock, StartRange, Branch, Effects;
    var r := o.Evaluate(m.trace, e, m.input);
    var m1 := m.Emit(Effects(e, m.input, r));
    EffectsGrow(e, m.input, r);
    if e.func.Range? && !r.err {
      var m2 := StartRange(jumps, m1, e, o.Elements(m.trace, e, m.input));
      RangeGrows(jumps, m1, e, o.Elements(m.trace, e, m.input));
      BranchKeeps(jumps, m2, e, r);
    } else if e.func.End? {
      EndGrows(m1);
      BranchKeeps(jumps, EndBlock(m1), e, r);
    } else {
      BranchKeeps(jumps, if e.func.Break? then m1.(current := None) else m1, e, r);
    }
  }

  lemma {:induction false} ExprsGrow(o: Oracle, jumps: map<nat, nat>, m: Machine, row: Row, k: nat)
    requires m.Ok() && k <= |row|
    ensures |StepExprs(o, jumps, m, row, k).trace| >= |m.trace|
    ensures k < |row| ==> |StepExprs(o, jumps, m, row, k).trace| > |m.trace|
    decreases |row| - k
  {
    hide StepExpr;
    if k < |row| {
      ExprGrows(o, jumps, m, row[k]);
      var f := StepExpr(o, jumps, m, row[k]);
      if !f.leave {
        ExprsGrow(o, jumps, f.m, row, k + 1);
      }
    }
  }

  lemma RowGrows(o: Oracle, rows: seq<Row>, jumps: map<nat, nat>, m: Machine)
    requires m.Ok() && Live(rows, m)
    ensures |StepRow(o, rows, jumps, m).trace| >= |m.trace|
  {
    hide StepExprs;
    var row := rows[m.idx];
    ExprsGrow(o, jumps, if HasOpen(row) then m.Emit([Append]) else m, row, 0);
  }

  /** Trace lengths between lo and hi, hi excluded, ask the same question of both oracles. */
  ghost predicate Agree(o: Oracle, g: Oracle, lo: nat, hi: nat) {
    forall t: Trace, e, input :: lo <= |t| < hi ==> o.eval(t, e, input) == g.eval(t, e, input)
  }

  /** Two oracles that agree while a row without a range runs make it run alike. */
  lemma {:induction false} ExprsAgree(o: Oracle, g: Oracle, jumps: map<nat, nat>, m: Machine, row: Row, k: nat, lo: nat, hi: nat)
    requires m.Ok() && k <= |row| && RangeFree(row) && lo <= |m.trace|
    requires |StepExprs(o, jumps, m, row, k).trace| <= hi && Agree(o, g, lo, hi)
    ensures StepExprs(g, jumps, m, row, k) == StepExprs(o, jumps, m, row, k)
    decreases |row| - k
  {
    hide StepExpr;
    if k < |row| {
      ExprsGrow(o, jumps, m, row, k);
      ExprAgrees(o, g, jumps, m, row[k]);
      ExprGrows(o, jumps, m, row[k]);
      var f := StepExpr(o, jumps, m, row[k]);
      if !f.leave {
        ExprsAgree(o, g, jumps, f.m, row, k + 1, lo, hi);
      }
    }
  }

  lemma ExprAgrees(o: Oracle, g: Oracle, jumps: map<nat, nat>, m: Machine, e: Expr)
    requires m.Ok() && !e.func.Range? && o.eval(m.trace, e, m.input) == g.eval(m.trace, e, m.input)
    ensures StepExpr(g, jumps, m, e) == StepExpr(o, jumps, m, e)
  {
    assert g.Evaluate(m.trace, e, m.input) == o.Evaluate(m.trace, e, m.input);
    hide Branch, EndBlock, Effects, StartRange;
  }

  lemma RowAgrees(o: Oracle, g: Oracle, rows: seq<Row>, jumps: map<nat, nat>, m: Machine)
    requires m.Ok() && Live(rows, m) && RangeFree(rows[m.idx])
    requires Agree(o, g, |m.trace|, |StepRow(o, rows, jumps, m).trace|)
    ensures StepRow(g, rows, jumps, m) == StepRow(o, rows, jumps, m)
  {
    hide StepExprs, Agree;
    var row := rows[m.idx];
    var m1 := if HasOpen(row) then m.Emit([Append]) else m;
    ExprsAgree(o, g, jumps, m1, row, 0, |m.trace|, |StepRow(o, rows, jumps, m).trace|);
  }

  /** The length of the trace after t rows of the journey. */
  ghost function Long(rows: seq<Row>, jumps: map<nat, nat>, p: seq<nat>, q: seq<nat>, t: nat): nat
    requires Flat(rows, jumps) && Lasso(rows, jumps, p, q)
  {
    |Journey(rows, jumps, p, q, t).m.trace|
  }

  /** One row of the journey. */
  lemma JourneyStep(rows: seq<Row>, jumps: map<nat, nat>, p: seq<nat>, q: seq<nat>, t: nat)
    requires Flat(rows, jumps) && Lasso(rows, jumps, p, q)
    ensures var s, s' := Journey(rows, jumps, p, q, t), Journey(rows, jumps, p, q, t + 1);
            && Live(rows, s.m) && s.ahead[0] == s.m.idx && s'.ahead != [] && s'.ahead == Onward(s, q)
            && s'.m == StepRow(Guide(rows, jumps, s.m.idx, s'.ahead[0]), rows, jumps, s.m)
            && |s.m.trace| <= |s'.m.trace|
  {
    hide StepRow, Flat, Lasso, Guide;
    var s, s' := Journey(rows, jumps, p, q, t), Journey(rows, jumps, p, q, t + 1);
    OnwardLeads(rows, jumps, p, q, s);
    RowGrows(Guide(rows, jumps, s.m.idx, s'.ahead[0]), rows, jumps, s.m);
  }

  lemma LongStep(rows: seq<Row>, jumps: map<nat, nat>, p: seq<nat>, q: seq<nat>, t: nat)
    requires Flat(rows, jumps) && Lasso(rows, jumps, p, q)
    ensures Long(rows, jumps, p, q, t) <= Long(rows, jumps, p, q, t + 1)
  {
    hide Flat, Lasso, Journey;
    JourneyStep(rows, jumps, p, q, t);
  }

  lemma {:induction false} LongGrows(rows: seq<Row>, jumps: map<nat, nat>, p: seq<nat>, q: seq<nat>, t: nat, u: nat)
    requires Flat(rows, jumps) && Lasso(rows, jumps, p, q) && t <= u
    ensures Long(rows, jumps, p, q, t) <= Long(rows, jumps, p, q, u)
    decreases u
  {
    hide Flat, Lasso, Journey, Long;
    if t < u {
      LongGrows(rows, jumps, p, q, t, u - 1);
      LongStep(rows, jumps, p, q, u - 1);
    }
  }

  /** The journey's answer when the trace has a given length: that of the row under way. */
  ghost function Told(rows: seq<Row>, jumps: map<nat, nat>, p: seq<nat>, q: seq<nat>, length: nat, e: Expr): Outcome
    requires Flat(rows, jumps) && Lasso(rows, jumps, p, q)
  {
    if t: nat :| Long(rows, jumps, p, q, t) <= length < Long(rows, jumps, p, q, t + 1) then AnswerAt(rows, jumps, p, q, t, e)
    else Passing
  }

  ghost function AnswerAt(rows: seq<Row>, jumps: map<nat, nat>, p: seq<nat>, q: seq<nat>, t: nat, e: Expr): Outcome
    requires Flat(rows, jumps) && Lasso(rows, jumps, p, q)
  {
    JourneyStep(rows, jumps, p, q, t);
    Answer(rows, jumps, Journey(rows, jumps, p, q, t).m.idx, Journey(rows, jumps, p, q, t + 1).ahead[0], e)
  }

  lemma ToldIs(rows: seq<Row>, jumps: map<nat, nat>, p: seq<nat>, q: seq<nat>, t: nat, length: nat, e: Expr)
    requires Flat(rows, jumps) && Lasso(rows, jumps, p, q)
    requires Long(rows, jumps, p, q, t) <= length < Long(rows, jumps, p, q, t + 1)
    ensures Told(rows, jumps, p, q, length, e) == AnswerAt(rows, jumps, p, q, t, e)
  {
    hide Flat, Lasso, Journey, Long, AnswerAt;
    forall u: nat | Long(rows, jumps, p, q, u) <= length < Long(rows, jumps, p, q, u + 1)
      ensures u == t
    {
      if u < t {
        LongGrows(rows, jumps, p, q, u + 1, t);
      } else if t < u {
        LongGrows(rows, jumps, p, q, t + 1, u);
      }
    }
  }

  /** The oracle of the journey. */
  ghost function Guided(rows: seq<Row>, jumps: map<nat, nat>, p: seq<nat>, q: seq<nat>): Oracle
    requires Flat(rows, jumps) && Lasso(rows, jumps, p, q)
  {
    Oracle((t: Trace, e: Expr, input: seq<Value>) => Told(rows, jumps, p, q, |t|, e), (t, e, input) => None)
  }

  lemma GuidedAgrees(rows: seq<Row>, jumps: map<nat, nat>, p: seq<nat>, q: seq<nat>, t: nat)
    requires Flat(rows, jumps) && Lasso(rows, jumps, p, q)
    ensures var s, s' := Journey(rows, jumps, p, q, t), Journey(rows, jumps, p, q, t + 1);
            && Live(rows, s.m) && s'.ahead != []
            && Agree(Guide(rows, jumps, s.m.idx, s'.ahead[0]), Guided(rows, jumps, p, q), |s.m.trace|, |s'.m.trace|)
  {
    hide Flat, Lasso, Journey, Told, Answer;
    JourneyStep(rows, jumps, p, q, t);
    var s, s' := Journey(rows, jumps, p, q, t), Journey(rows, jumps, p, q, t + 1);
    forall x: Trace, e, input | |s.m.trace| <= |x| < |s'.m.trace|
      ensures Guide(rows, jumps, s.m.idx, s'.ahead[0]).eval(x, e, input) == Guided(rows, jumps, p, q).eval(x, e, input)
    {
      ToldIs(rows, jumps, p, q, t, |x|, e);
    }
  }

  lemma {:induction false} JourneyGoesOn(rows: seq<Row>, jumps: map<nat, nat>, p: seq<nat>, q: seq<nat>, t: nat, n: nat)
    requires Flat(rows, jumps) && Lasso(rows, jumps, p, q)
    ensures Live(rows, Run(Guided(rows, jumps, p, q), rows, jumps, Journey(rows, jumps, p, q, t).m, n))
    decreases n
  {
    hide IsBuilt, Lasso, Journey, Guided, StepRow, Guide, Agree;
    GuidedAgrees(rows, jumps, p, q, t);
    JourneyStep(rows, jumps, p, q, t);
    if n > 0 {
      var s, s' := Journey(rows, jumps, p, q, t), Journey(rows, jumps, p, q, t + 1);
      RowAgrees(Guide(rows, jumps, s.m.idx, s'.ahead[0]), Guided(rows, jumps, p, q), rows, jumps, s.m);
      JourneyGoesOn(rows, jumps, p, q, t + 1, n - 1);
    }
  }

  lemma RecursRuns(rows: seq<Row>, jumps: map<nat, nat>, b: nat) returns (o: Oracle)
    requires Flat(rows, jumps) && Recurs(rows, jumps, b)
    ensures !Stops(o, rows, jumps, Start)
  {
    LackingGoBack(rows, jumps, b);
    hide IsBuilt, Edge, GoesForward, Run;
    var p :| Path(rows, jumps, p) && p[0] == 0 && p[|p| - 1] == b;
    var q :| Path(rows, jumps, q) && q[0] == Back(rows, b) && q[|q| - 1] == b;
    assert Lasso(rows, jumps, p, q);
    o := Guided(rows, jumps, p, q);
    forall n: nat
      ensures Live(rows, Run(o, rows, jumps, Start, n))
    {
      assert Journey(rows, jumps, p, q, 0).m == Start;
      JourneyGoesOn(rows, jumps, p, q, 0, n);
    }
  }

  /** The runs of a template without a range all stop, whatever the expressions yield, if and only if
      no row without the jump it needs can be reached and then reached again from the row it is sent
      back to. */
  lemma EveryRunStopsIff(rows: seq<Row>, jumps: map<nat, nat>)
    requires Flat(rows, jumps)
    ensures (forall o :: Stops(o, rows, jumps, Start)) <==> forall b: nat :: !Recurs(rows, jumps, b)
  {
    hide Flat, Recurs, Stops, LeadsTo;
    if b: nat :| Recurs(rows, jumps, b) {
      var o := RecursRuns(rows, jumps, b);
    } else {
      Here(rows, jumps, 0);
      forall o
        ensures Stops(o, rows, jumps, Start)
      {
        StopsFrom(o, rows, jumps, Start, 0);
      }
    }
  }
}
