/**
  Runs that end normally, of any structured program, nested ranges included.

  However ranges are mistaken for one another, a run that has entered a range outside of all others can only
  leave it at its end, and then no range is under way. So the rows tell which runs can end at all.
 */
module Endings {
  import opened Common
  import opened Template
  import opened Runtime
  import opened Structured
  import opened Reach
  import opened Simulation
  import opened Nesting

  // ----- The rows of a program -----

  predicate IsRange(row: Row) {
    |row| == 1 && row[0].func.Range? && |row[0].params| >= 3
  }

  /** What row i of a flattened program can be, and whether it has a jump. */
  ghost predicate KindAt(c: Image, i: nat)
    requires i < |c.rows|
  {
    var row := c.rows[i];
    || ((PlainRow(row) || row == [EndExpr]) && i !in c.jumps)
    || ((HeaderRow(row) || row == [ElseExpr]) && i in c.jumps)
    || (IsRange(row) && i in c.jumps && c.jumps[i] < |c.rows| && c.rows[c.jumps[i]] == [EndExpr])
  }

  ghost predicate Kinds(c: Image, lo: nat, hi: nat) {
    hi <= |c.rows| && forall i :: lo <= i < hi ==> KindAt(c, i)
  }

  lemma KindsOne(c: Image, i: nat)
    requires i < |c.rows| && KindAt(c, i)
    ensures Kinds(c, i, i + 1)
  {
  }

  lemma KindsJoin(c: Image, lo: nat, mid: nat, hi: nat)
    requires Kinds(c, lo, mid) && Kinds(c, mid, hi)
    ensures Kinds(c, lo, hi)
  {
  }

  lemma {:induction false} KindsStmt(c: Image, s: Stmt, base: nat)
    requires WfStmt(s) && LinkedStmt(s, base, c.jumps) && Holds(c, base, FlatStmt(s))
    ensures Kinds(c, base, base + |FlatStmt(s)|)
    decreases s, 1
  {
    hide Linked, Wf, HeaderRow, Holds, Kinds;
    match s
    case Line(row) =>
      HoldsRow(c, base, row);
      KindsOne(c, base);
    case Guard(h, body) =>
      LayoutBlock(c, h, body, base);
      KindsBlock(c, body, base, base + 1 + |Flat(body)|);
    case GuardElse(h, body, els) =>
      KindsElse(c, h, body, els, base);
    case Loop(range, body) =>
      LayoutBlock(c, [range], body, base);
      KindsBlock(c, body, base, base + 1 + |Flat(body)|);
  }

  lemma {:induction false} KindsElse(c: Image, h: Row, body: Prog, els: Prog, base: nat)
    requires var s := GuardElse(h, body, els);
             WfStmt(s) && LinkedStmt(s, base, c.jumps) && Holds(c, base, FlatStmt(s))
    ensures Kinds(c, base, base + |FlatStmt(GuardElse(h, body, els))|)
    decreases GuardElse(h, body, els), 0
  {
    hide Linked, Wf, HeaderRow, Holds, Kinds;
    var mid := base + 1 + |Flat(body)|;
    LayoutElse(c, h, Flat(body), Flat(els), base);
    HoldsSplit(c, base + 1, Flat(body), [[ElseExpr]]);
    HoldsRow(c, mid, [ElseExpr]);
    KindsBlock(c, body, base, mid);
    KindsBlock(c, els, mid, mid + 1 + |Flat(els)|);
    KindsJoin(c, base, mid + 1, mid + 2 + |Flat(els)|);
  }

  /** A row at lo, a part of a block, and the row at hi behind it. */
  lemma {:induction false} KindsBlock(c: Image, body: Prog, lo: nat, hi: nat)
    requires Wf(body) && Linked(body, lo + 1, c.jumps) && hi == lo + 1 + |Flat(body)| < |c.rows|
    requires Holds(c, lo + 1, Flat(body) + [c.rows[hi]]) && KindAt(c, lo) && KindAt(c, hi)
    ensures Kinds(c, lo, hi + 1) && Kinds(c, lo + 1, hi + 1)
    decreases body, 1
  {
    hide Linked, Wf, KindAt, Holds, Kinds;
    HoldsSplit(c, lo + 1, Flat(body), [c.rows[hi]]);
    KindsProg(c, body, lo + 1);
    KindsOne(c, lo);
    KindsOne(c, hi);
    KindsJoin(c, lo + 1, hi, hi + 1);
    KindsJoin(c, lo, lo + 1, hi + 1);
  }

  lemma {:induction false} KindsProg(c: Image, p: Prog, base: nat)
    requires Wf(p) && Linked(p, base, c.jumps) && Holds(c, base, Flat(p))
    ensures Kinds(c, base, base + |Flat(p)|)
    decreases p, 0
  {
    hide LinkedStmt, WfStmt;
    if p.Cons? {
      HoldsSplit(c, base, FlatStmt(p.head), Flat(p.tail));
      KindsStmt(c, p.head, base);
      KindsProg(c, p.tail, base + |FlatStmt(p.head)|);
    }
  }

  // ----- Inside a range -----

  predicate Over(v: RangeValue) {
    v.index >= |v.items|
  }

  /** The range under way contains row i and lies within the rows lo..hi. */
  ghost predicate Encloses(c: Image, v: RangeValue, i: nat, lo: nat, hi: nat) {
    && lo <= v.start < i <= v.end <= hi < |c.rows|
    && v.start in c.jumps && c.jumps[v.start] == v.end && c.rows[v.end] == [EndExpr]
  }

  /** What is true of the ranges under way as long as the machine is in the range at row lo, which ends at
      row hi: those on the stack contain the row it is at and one another, and the current one is on top,
      unless it is a range over nothing whose "end" row is next. */
  ghost predicate Within(c: Image, m: Machine, lo: nat, hi: nat) {
    && m.Ok() && m.status.Running? && m.input == [] && lo < m.idx <= hi
    && (forall q :: 0 <= q < |m.rangeStack| ==> Encloses(c, m.cells[m.rangeStack[q]], m.idx, lo, hi))
    && (forall q, r :: 0 <= q < r < |m.rangeStack| ==> m.cells[m.rangeStack[q]].start < m.cells[m.rangeStack[r]].start)
    && (m.rangeStack != [] ==> m.current.Some?)
    && (m.current.Some? ==>
          var v := m.cells[m.current.value];
          && v.end <= hi
          && (|| (m.rangeStack != [] && m.current.value == m.rangeStack[|m.rangeStack| - 1])
              || (Over(v) && (m.rangeStack == [] || (v.end == m.idx && c.rows[m.idx] == [EndExpr])))))
  }

  /** The machine has left the range that ends at row hi, and no range is under way. */
  ghost predicate HasLeft(m: Machine, hi: nat) {
    Before(m, hi + 1) && Idle(m, hi + 1)
  }

  /** Going on to row j, which all ranges under way contain. */
  lemma MoveWithin(c: Image, m: Machine, lo: nat, hi: nat, j: nat, t: Trace)
    requires Within(c, m, lo, hi) && m.idx < |c.rows| && c.rows[m.idx] != [EndExpr] && lo < j <= hi
    requires forall q :: 0 <= q < |m.rangeStack| ==> var v := m.cells[m.rangeStack[q]]; v.start < j <= v.end
    ensures Within(c, m.(idx := j, trace := t), lo, hi)
  {
  }

  /** Inside a well-nested table, a jump from a row inside a range stays inside it. */
  lemma JumpInside(j: map<nat, nat>, s: nat, i: nat)
    requires WellNested(j) && s in j && i in j && s < i < j[s]
    ensures i < j[i] < j[s]
  {
  }

  /** A row that is no "end" and no "range". */
  lemma StepInside(c: Image, m: Machine, lo: nat, hi: nat)
    requires Within(c, m, lo, hi) && hi < |c.rows| && KindAt(c, m.idx)
    requires WellNested(c.jumps) && lo in c.jumps && c.jumps[lo] == hi && c.rows[hi] == [EndExpr]
    requires c.rows[m.idx] != [EndExpr] && !IsRange(c.rows[m.idx])
    ensures var r := StepRow(c.o, c.rows, c.jumps, m); r.status.Running? ==> Within(c, r, lo, hi)
  {
    hide StepRow, Chain, HeaderRow, PlainRow;
    var i, row := m.idx, c.rows[m.idx];
    var r := StepRow(c.o, c.rows, c.jumps, m);
    if r.status.Running? {
      assert i < hi;
      if i in c.jumps {
        InsideAll(c, m, lo, hi);
      }
      StepTo(c, m, i);
      MoveWithin(c, m, lo, hi, r.idx, r.trace);
    }
  }

  /** Where such a row leads. */
  lemma StepTo(c: Image, m: Machine, i: nat)
    requires Before(m, i) && i < |c.rows| && KindAt(c, i) && Forward(c.jumps)
    requires c.rows[i] != [EndExpr] && !IsRange(c.rows[i])
    ensures var r := StepRow(c.o, c.rows, c.jumps, m);
            r.status.Running? ==>
              && r == m.(idx := r.idx, trace := r.trace)
              && (r.idx == i + 1 || (i in c.jumps && (r.idx == c.jumps[i] || r.idx == c.jumps[i] + 1)))
  {
    hide StepRow, Chain;
    if PlainRow(c.rows[i]) && i !in c.jumps {
      LineRuns(c, m, i);
    } else if HeaderRow(c.rows[i]) {
      HeaderRuns(c, m, i);
    } else {
      ElseRuns(c, m, i);
    }
  }

  // ----- The "range" and "end" rows inside a range -----

  lemma RangeIsLinked(c: Image, i: nat)
    requires i < |c.rows| && KindAt(c, i) && IsRange(c.rows[i])
    ensures i in c.jumps && c.jumps[i] < |c.rows| && c.rows[c.jumps[i]] == [EndExpr]
    ensures c.rows[i] == [c.rows[i][0]] && c.rows[i] != [EndExpr]
  {
    var f := c.rows[i][0].func;
    assert !PlainFunc(f) && !HeaderFunc(f) && !f.Else? && !f.End?;
  }

  lemma StepRange(c: Image, m: Machine, lo: nat, hi: nat)
    requires Within(c, m, lo, hi) && hi < |c.rows| && KindAt(c, m.idx)
    requires WellNested(c.jumps) && lo in c.jumps && c.jumps[lo] == hi && c.rows[hi] == [EndExpr]
    requires IsRange(c.rows[m.idx])
    ensures var r := StepRow(c.o, c.rows, c.jumps, m); r.status.Running? ==> Within(c, r, lo, hi)
  {
    WithinOk(c, m, lo, hi);
    hide StepRow, KindAt, Within, WellNested;
    var i, range := m.idx, c.rows[m.idx][0];
    RangeIsLinked(c, i);
    InsideAll(c, m, lo, hi);
    RangeRuns(c, m, i, range, c.jumps[i]);
    var r := StepRow(c.o, c.rows, c.jumps, m);
    if c.o.items(m.trace + [Append], range, []).None? {
      MoveWithin(c, m, lo, hi, r.idx, r.trace);
    } else if c.o.items(m.trace + [Append], range, []).value == [] {
      EmptyWithin(c, m, lo, hi, r);
    } else {
      BeginWithin(c, m, lo, hi, r);
    }
  }

  /** A jump stays inside every range under way. */
  lemma InsideAll(c: Image, m: Machine, lo: nat, hi: nat)
    requires Within(c, m, lo, hi) && hi < |c.rows| && m.idx in c.jumps && c.rows[m.idx] != [EndExpr]
    requires WellNested(c.jumps) && lo in c.jumps && c.jumps[lo] == hi && c.rows[hi] == [EndExpr]
    ensures m.idx < c.jumps[m.idx] < hi
    ensures forall q :: 0 <= q < |m.rangeStack| ==> var v := m.cells[m.rangeStack[q]]; v.start < m.idx < c.jumps[m.idx] < v.end
  {
    JumpInside(c.jumps, lo, m.idx);
    forall q | 0 <= q < |m.rangeStack|
      ensures var v := m.cells[m.rangeStack[q]]; v.start < m.idx < c.jumps[m.idx] < v.end
    {
      JumpInside(c.jumps, m.cells[m.rangeStack[q]].start, m.idx);
    }
  }

  /** A range over nothing: its "end" row is next. */
  lemma EmptyWithin(c: Image, m: Machine, lo: nat, hi: nat, r: Machine)
    requires Within(c, m, lo, hi) && r.Ok() && m.idx in c.jumps && m.idx < c.jumps[m.idx] < hi < |c.rows|
    requires c.rows[c.jumps[m.idx]] == [EndExpr]
    requires forall q :: 0 <= q < |m.rangeStack| ==> var v := m.cells[m.rangeStack[q]]; v.start < m.idx < c.jumps[m.idx] < v.end
    requires |r.cells| == |m.cells| + 1
    requires r == m.(trace := r.trace, idx := c.jumps[m.idx], cells := m.cells + [r.cells[|m.cells|]], current := Some(|m.cells|))
    requires var v := r.cells[|m.cells|]; Over(v) && v.end == c.jumps[m.idx]
    ensures Within(c, r, lo, hi)
  {
  }

  /** A range with elements: it is on top of the stack, and its first row is next. */
  lemma BeginWithin(c: Image, m: Machine, lo: nat, hi: nat, r: Machine)
    requires Within(c, m, lo, hi) && r.Ok() && m.idx in c.jumps && m.idx < c.jumps[m.idx] < hi < |c.rows|
    requires c.rows[c.jumps[m.idx]] == [EndExpr]
    requires forall q :: 0 <= q < |m.rangeStack| ==> var v := m.cells[m.rangeStack[q]]; v.start < m.idx < c.jumps[m.idx] < v.end
    requires |r.cells| == |m.cells| + 1
    requires r == m.(trace := r.trace, idx := m.idx + 1, cells := m.cells + [r.cells[|m.cells|]], current := Some(|m.cells|),
                     rangeStack := m.rangeStack + [|m.cells|])
    requires var v := r.cells[|m.cells|]; v.start == m.idx && v.end == c.jumps[m.idx]
    ensures Within(c, r, lo, hi)
  {
  }

  /** The "end" row of a range that is over, with two ranges on the stack of which the lower one is over,
      too: that one becomes the current one. */
  lemma EndReturns(c: Image, m: Machine, end: nat, n: nat)
    requires Before(m, end) && end < |c.rows| && c.rows[end] == [EndExpr]
    requires m.current == Some(n) && m.cells[n].end == end && Over(m.cells[n])
    requires |m.rangeStack| >= 2 && Over(m.cells[m.rangeStack[|m.rangeStack| - 2]])
    ensures StepRow(c.o, c.rows, c.jumps, m) ==
            m.(trace := m.trace + EndEvents, idx := end + 1,
               current := Some(m.rangeStack[|m.rangeStack| - 2]), rangeStack := m.rangeStack[..|m.rangeStack| - 1])
  {
    hide StepExprs;
    OneExpr(c, m, EndExpr);
    assert m.trace + [Eval(EndExpr, [], Outcome([], false))] + [Pop] == m.trace + EndEvents;
  }

  lemma StepEnd(c: Image, m: Machine, lo: nat, hi: nat)
    requires Within(c, m, lo, hi) && hi < |c.rows| && c.rows[m.idx] == [EndExpr]
    requires WellNested(c.jumps) && lo in c.jumps && c.jumps[lo] == hi
    ensures var r := StepRow(c.o, c.rows, c.jumps, m); Within(c, r, lo, hi) || HasLeft(r, hi)
  {
    hide StepRow, Within;
    WithinOk(c, m, lo, hi);
    var i, r := m.idx, StepRow(c.o, c.rows, c.jumps, m);
    if m.current.None? || m.cells[m.current.value].end != i {
      EndRuns(c, m, i);
      EndPassed(c, m, lo, hi, r);
    } else if !Over(m.cells[m.current.value]) {
      EndRunsNext(c, m, i, m.current.value);
      NextWithin(c, m, lo, hi, r);
    } else if |m.rangeStack| <= 1 {
      EndRunsLast(c, m, i, m.current.value);
      LastWithin(c, m, lo, hi, r);
    } else if Over(m.cells[m.rangeStack[|m.rangeStack| - 2]]) {
      EndReturns(c, m, i, m.current.value);
      ReturnWithin(c, m, lo, hi, r);
    } else {
      EndRestarts(c, m, i, m.current.value);
      RestartWithin(c, m, lo, hi, r);
    }
  }

  /** A range on the stack ends at this row only if it is on top. */
  lemma OnlyTopEnds(c: Image, m: Machine, lo: nat, hi: nat, q: nat)
    requires Within(c, m, lo, hi) && WellNested(c.jumps) && q < |m.rangeStack| - 1
    ensures m.idx < m.cells[m.rangeStack[q]].end && m.cells[m.rangeStack[|m.rangeStack| - 1]].end < m.cells[m.rangeStack[q]].end
  {
    var v, w := m.cells[m.rangeStack[q]], m.cells[m.rangeStack[|m.rangeStack| - 1]];
    assert v.start < w.start && v.start in c.jumps && w.start in c.jumps;
    assert w.start < m.idx <= v.end;
  }

  lemma WithinOk(c: Image, m: Machine, lo: nat, hi: nat)
    requires Within(c, m, lo, hi)
    ensures lo < m.idx <= hi && Before(m, m.idx) && (m.current.Some? ==> m.cells[m.current.value].end <= hi)
    ensures m.current.Some? && !Over(m.cells[m.current.value]) ==> m.cells[m.current.value].start >= 0
    ensures forall q :: 0 <= q < |m.rangeStack| ==> m.cells[m.rangeStack[q]].start >= 0
  {
  }

  /** The "end" of a block, or of a range that has been forgotten. */
  lemma EndPassed(c: Image, m: Machine, lo: nat, hi: nat, r: Machine)
    requires Within(c, m, lo, hi) && WellNested(c.jumps)
    requires m.current.None? || m.cells[m.current.value].end != m.idx
    requires r == m.(idx := m.idx + 1, trace := r.trace)
    ensures Within(c, r, lo, hi) || HasLeft(r, hi)
  {
    forall q | 0 <= q < |m.rangeStack|
      ensures m.idx < m.cells[m.rangeStack[q]].end
    {
      if q < |m.rangeStack| - 1 { OnlyTopEnds(c, m, lo, hi, q); }
    }
    if m.rangeStack != [] { assert m.idx < m.cells[m.rangeStack[0]].end; }
  }

  lemma NextWithin(c: Image, m: Machine, lo: nat, hi: nat, r: Machine)
    requires Within(c, m, lo, hi) && WellNested(c.jumps) && m.current.Some? && r.Ok()
    requires var n := m.current.value;
             var v := m.cells[n];
             && !Over(v) && v.end == m.idx
             && r == m.(idx := v.start + 1, trace := r.trace, cells := m.cells[n := v.(index := v.index + 1)])
    ensures Within(c, r, lo, hi)
  {
    var k := |m.rangeStack| - 1;
    forall q | 0 <= q <= k
      ensures Encloses(c, r.cells[r.rangeStack[q]], r.idx, lo, hi)
    {
      assert q < k ==> m.cells[m.rangeStack[q]].start < m.cells[m.rangeStack[k]].start;
    }
  }

  lemma LastWithin(c: Image, m: Machine, lo: nat, hi: nat, r: Machine)
    requires Within(c, m, lo, hi) && |m.rangeStack| <= 1 && m.current.Some? && Over(m.cells[m.current.value])
    requires r == m.(idx := m.idx + 1, trace := r.trace, rangeStack := [],
                     current := if m.rangeStack == [] then m.current else None)
    ensures Within(c, r, lo, hi) || HasLeft(r, hi)
  {
  }

  lemma ReturnWithin(c: Image, m: Machine, lo: nat, hi: nat, r: Machine)
    requires Within(c, m, lo, hi) && WellNested(c.jumps) && |m.rangeStack| >= 2
    requires r == m.(idx := m.idx + 1, trace := r.trace,
                     current := Some(m.rangeStack[|m.rangeStack| - 2]), rangeStack := m.rangeStack[..|m.rangeStack| - 1])
    ensures Within(c, r, lo, hi)
  {
    forall q | 0 <= q < |m.rangeStack| - 1
      ensures m.idx < m.cells[m.rangeStack[q]].end
    {
      OnlyTopEnds(c, m, lo, hi, q);
    }
  }

  lemma RestartWithin(c: Image, m: Machine, lo: nat, hi: nat, r: Machine)
    requires Within(c, m, lo, hi) && |m.rangeStack| >= 2 && r.Ok()
    requires var n := m.rangeStack[|m.rangeStack| - 2];
             var w := m.cells[n];
             r == m.(idx := w.start + 1, trace := r.trace, cells := m.cells[n := w.(index := w.index + 1)],
                     current := Some(n), rangeStack := m.rangeStack[..|m.rangeStack| - 1])
    ensures Within(c, r, lo, hi)
  {
    var k := |m.rangeStack| - 2;
    assert lo <= m.cells[m.rangeStack[k]].start < m.idx;
    forall q | 0 <= q <= k
      ensures Encloses(c, r.cells[r.rangeStack[q]], r.idx, lo, hi)
    {
      assert Encloses(c, m.cells[m.rangeStack[q]], m.idx, lo, hi);
      assert q < k ==> m.cells[m.rangeStack[q]].start < m.cells[m.rangeStack[k]].start;
    }
  }

  // ----- Leaving a range -----

  /** After n rows the run has ended normally. */
  ghost predicate EndsWell(c: Image, m: Machine, n: nat)
    requires m.Ok()
  {
    !Live(c.rows, c.Go(m, n)) && c.Go(m, n).status.Running?
  }

  lemma EndsLater(c: Image, m: Machine, n: nat)
    requires m.Ok() && Live(c.rows, m) && EndsWell(c, m, n)
    ensures n > 0
    ensures var r := StepRow(c.o, c.rows, c.jumps, m); r == c.Go(m, 1) && r.status.Running? && EndsWell(c, r, n - 1)
  {
    hide StepRow;
    GoOne(c, m);
    var r := StepRow(c.o, c.rows, c.jumps, m);
    GoThen(c, m, 1, n - 1);
    if !r.status.Running? {
      GoStopped(c, r, n - 1);
    }
  }

  /** A run that is inside a range outside of all others and ends normally leaves that range. */
  lemma {:induction false} RunLeaves(c: Image, m: Machine, lo: nat, hi: nat, n: nat) returns (k: nat)
    requires Within(c, m, lo, hi) && hi < |c.rows| && Kinds(c, lo, hi + 1) && EndsWell(c, m, n)
    requires WellNested(c.jumps) && lo in c.jumps && c.jumps[lo] == hi && c.rows[hi] == [EndExpr]
    ensures k <= n && HasLeft(c.Go(m, k), hi)
    decreases n
  {
    hide Run, StepRow, Within, WellNested, Kinds, KindAt;
    WithinOk(c, m, lo, hi);
    WithinRow(c, m, lo, hi);
    EndsLater(c, m, n);
    var r := StepRow(c.o, c.rows, c.jumps, m);
    if c.rows[m.idx] == [EndExpr] {
      StepEnd(c, m, lo, hi);
    } else if IsRange(c.rows[m.idx]) {
      StepRange(c, m, lo, hi);
    } else {
      StepInside(c, m, lo, hi);
    }
    if HasLeft(r, hi) {
      k := 1;
    } else {
      k := RunLeaves(c, r, lo, hi, n - 1);
      GoThen(c, m, 1, k);
      k := 1 + k;
    }
  }

  lemma WithinRow(c: Image, m: Machine, lo: nat, hi: nat)
    requires Within(c, m, lo, hi) && hi < |c.rows| && Kinds(c, lo, hi + 1)
    ensures 0 <= m.idx < |c.rows| && KindAt(c, m.idx)
  {
  }

  lemma EndsThen(c: Image, m: Machine, n: nat, k: nat)
    requires m.Ok() && k <= n && EndsWell(c, m, n)
    ensures EndsWell(c, c.Go(m, k), n - k)
  {
    GoThen(c, m, k, n - k);
  }

  /** A run that enters a range where no range is under way, and ends normally, leaves it with none under
      way. */
  lemma LoopLeft(c: Image, range: Expr, body: Prog, base: nat, m: Machine, n: nat) returns (k: nat)
    requires var s := Loop(range, body); WfStmt(s) && LinkedStmt(s, base, c.jumps) && Holds(c, base, FlatStmt(s))
    requires WellNested(c.jumps) && Before(m, base) && Idle(m, base) && EndsWell(c, m, n)
    ensures k <= n && HasLeft(c.Go(m, k), base + 1 + |Flat(body)|)
  {
    hide Run, StepRow, Linked, Wf, Holds, WellNested, Kinds, Within;
    var end := base + 1 + |Flat(body)|;
    LayoutBlock(c, [range], body, base);
    KindsStmt(c, Loop(range, body), base);
    RangeRuns(c, m, base, range, end);
    EndsLater(c, m, n);
    var r := c.Go(m, 1);
    if c.o.items(m.trace + [Append], range, []).None? {
      k := 1;
    } else {
      if c.o.items(m.trace + [Append], range, []).value == [] {
        EnterEmpty(c, m, base, end, r);
      } else {
        EnterRange(c, m, base, end, r);
      }
      k := RunLeaves(c, r, base, end, n - 1);
      GoThen(c, m, 1, k);
      k := 1 + k;
    }
  }

  lemma EnterEmpty(c: Image, m: Machine, lo: nat, hi: nat, r: Machine)
    requires m.Ok() && Idle(m, lo) && r.Ok() && r.status.Running? && r.input == [] && lo < hi < |c.rows|
    requires r.idx == hi && r.rangeStack == m.rangeStack && r.current == Some(|m.cells|)
    requires |m.cells| < |r.cells| && var v := r.cells[|m.cells|]; Over(v) && v.end == hi
    ensures Within(c, r, lo, hi)
  {
  }

  lemma EnterRange(c: Image, m: Machine, lo: nat, hi: nat, r: Machine)
    requires m.Ok() && Idle(m, lo) && r.Ok() && r.status.Running? && r.input == [] && lo < hi < |c.rows|
    requires lo in c.jumps && c.jumps[lo] == hi && c.rows[hi] == [EndExpr]
    requires r.idx == lo + 1 && r.rangeStack == m.rangeStack + [|m.cells|] && r.current == Some(|m.cells|)
    requires |m.cells| < |r.cells| && var v := r.cells[|m.cells|]; v.start == lo && v.end == hi
    ensures Within(c, r, lo, hi)
  {
  }
}
