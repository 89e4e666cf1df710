/**
  The template runtime: a machine that runs the rows of a built template with a program counter.

  Evaluating one expression is an oracle. It sees everything that has happened so far (the trace), so
  the variable stack, which only changes through the events in the trace, is a function of its input.
 */
module Runtime {
  import opened Common
  import opened Template

  datatype Value = Bool(b: bool) | Str(s: string) | Other(id: int)

  /** One element of a ranged map or array. */
  datatype Item = Item(key: string, value: Value)

  /** What evaluating an expression yields. */
  datatype Outcome = Outcome(out: seq<Value>, err: bool)

  /** What a run does, in order: opening, closing and emptying a scope of variables, binding a variable
      in the innermost scope, and evaluating an expression. */
  datatype Event =
    | Append
    | Pop
    | Clear
    | Bind(key: string, value: Value)
    | Eval(expr: Expr, input: seq<Value>, outcome: Outcome)

  type Trace = seq<Event>

  /** An "if" or "elseif" whose parameters fit none of the forms of a condition. It yields nothing, so
      it is not false, and evaluating it opens a scope of its own or empties the innermost one. */
  predicate Formless(e: Expr) {
    && (e.func.If? || e.func.ElseIf?)
    && (|e.params| == 0 || (|e.params| == 2 && e.params[0] != "ne") || |e.params| >= 4)
  }

  /** How an expression evaluates after a given trace on a given input. "else" and "end" always
      yield nothing; "range" fails (None) or yields the items to iterate over; a formless condition
      fails only where it looks up a parameter. */
  datatype Oracle = Oracle(
    eval: (Trace, Expr, seq<Value>) -> Outcome,
    items: (Trace, Expr, seq<Value>) -> Option<seq<Item>>)
  {
    function Evaluate(t: Trace, e: Expr, input: seq<Value>): Outcome {
      match e.func
      case End => Outcome([], false)
      case Else => Outcome([], false)
      case Range => if items(t, e, input).None? then Outcome([], true) else Outcome([Other(0)], false)
      case _ =>
        var r := eval(t, e, input);
        if Formless(e) && !(r.err && |e.params| == 2) then Outcome([], false) else r
    }

    function Elements(t: Trace, e: Expr, input: seq<Value>): seq<Item> {
      if items(t, e, input).None? then [] else items(t, e, input).value
    }
  }

  /** What evaluating an expression adds to the trace. */
  function Effects(e: Expr, input: seq<Value>, r: Outcome): Trace {
    [Eval(e, input, r)] + if !Formless(e) || r.err then [] else if e.func.If? then [Append] else [Clear]
  }

  /** Why a run stopped. */
  datatype Status = Running | Returned | SendFailed | Suspended | Failed | Panicked

  /** A range under way. The machine refers to ranges by their position in `cells`, as the source
      refers to them by reference. */
  datatype RangeValue = RangeValue(items: seq<Item>, start: int, index: nat, end: int, keyVar: string, valueVar: string)

  datatype Machine = Machine(
    idx: int,
    cells: seq<RangeValue>,
    current: Option<nat>,
    rangeStack: seq<nat>,
    input: seq<Value>,
    trace: Trace,
    status: Status)
  {
    predicate Ok() {
      && idx >= -1
      && (current.Some? ==> current.value < |cells|)
      && (forall i :: 0 <= i < |rangeStack| ==> rangeStack[i] < |cells|)
      && (forall i :: 0 <= i < |cells| ==> cells[i].index <= |cells[i].items| && cells[i].start >= -1)
    }

    function Stop(s: Status): Machine {
      this.(status := s)
    }

    function Emit(events: Trace): Machine {
      this.(trace := trace + events)
    }
  }

  /** Row i's jump target, 0 when it has none. */
  function Jump(jumps: map<nat, nat>, i: int): int {
    if i >= 0 && i in jumps then jumps[i] else 0
  }

  /** Binds key and value of the current element of cell c and moves the cell on to the next one. */
  function NextElement(m: Machine, c: nat): (r: Machine)
    requires m.Ok() && c < |m.cells| && m.cells[c].index < |m.cells[c].items|
    ensures r.Ok()
  {
    var v := m.cells[c];
    var item := v.items[v.index];
    m.Emit([Bind(v.keyVar, Str(item.key)), Bind(v.valueVar, item.value)])
     .(cells := m.cells[c := v.(index := v.index + 1)])
  }

  /** A "range" that evaluated without error. */
  function StartRange(jumps: map<nat, nat>, m: Machine, e: Expr, items: seq<Item>): (r: Machine)
    requires m.Ok()
    ensures r.Ok()
  {
    if |e.params| < 3 then m.Stop(Panicked)
    else
      var c := |m.cells|;
      var m1 := m.(cells := m.cells + [RangeValue(items, m.idx, 0, Jump(jumps, m.idx), e.params[1], e.params[2])],
                   current := Some(c));
      if items == [] then m1.(idx := Jump(jumps, m.idx) - 1)
      else NextElement(m1, c).(rangeStack := m.rangeStack + [c])
  }

  /** An "end" row: closes the scope and, at the end row of the current range, starts the next
      element or leaves the range. Leaving an inner range restarts the outer one at once. */
  function EndBlock(m: Machine): (r: Machine)
    requires m.Ok()
    ensures r.Ok()
  {
    var m1 := m.Emit([Pop]);
    if m.current.None? || m.cells[m.current.value].end != m.idx then m1
    else
      var c := m.current.value;
      var v := m.cells[c];
      if v.index < |v.items| then
        NextElement(m1.Emit([Append]).(idx := v.start), c)
      else if m.rangeStack == [] then m1
      else
        var rest := m.rangeStack[..|m.rangeStack| - 1];
        if rest == [] then m1.(rangeStack := rest, current := None)
        else
          var o := rest[|rest| - 1];
          var m2 := m1.(rangeStack := rest, current := Some(o));
          var w := m.cells[o];
          if w.index < |w.items| then NextElement(m2.Emit([Pop, Append]).(idx := w.start), o)
          else m2
  }

  /** How the pipeline goes on after one expression. */
  datatype Flow = Flow(m: Machine, leave: bool)

  predicate IsFalse(out: seq<Value>) {
    out == [Bool(false)]
  }

  predicate IsEmpty(out: seq<Value>) {
    out == [Str("")]
  }

  /** The last part of an iteration of the expression loop: jumps and piping. */
  function Branch(jumps: map<nat, nat>, m: Machine, e: Expr, r: Outcome): (f: Flow)
    requires m.Ok()
    ensures f.m.Ok()
  {
    var jump := Jump(jumps, m.idx);
    if r.err && jump == 0 then Flow(m.Stop(Failed), true)
    else if e.func.Else? then Flow(m.(idx := jump - 1), true)
    else if e.func.If? && IsFalse(r.out) then Flow(m.(idx := jump), true)
    else if (IsEmpty(r.out) || r.err) && jump > 0 then Flow(m.(idx := jump), true)
    else Flow(m.(input := r.out), false)
  }

  /** One expression of a row. */
  function StepExpr(o: Oracle, jumps: map<nat, nat>, m: Machine, e: Expr): (f: Flow)
    requires m.Ok()
    ensures f.m.Ok()
  {
    var r := o.Evaluate(m.trace, e, m.input);
    var m1 := m.Emit(Effects(e, m.input, r));
    if e.func.Send? || e.func.SendSync? then
      if r.err || r.out == [] then Flow(m1.Stop(SendFailed), true)
      else if e.func.SendSync? then Flow(m1.Stop(Suspended), true)
      else Flow(m1, false)
    else if e.func.Return? then Flow(m1.Stop(Returned), true)
    else if e.func.Range? && !r.err then
      var m2 := StartRange(jumps, m1, e, o.Elements(m.trace, e, m.input));
      if !m2.status.Running? then Flow(m2, true) else Branch(jumps, m2, e, r)
    else if e.func.End? then Branch(jumps, EndBlock(m1), e, r)
    else if e.func.Break? then Branch(jumps, m1.(current := None), e, r)
    else Branch(jumps, m1, e, r)
  }

  /** The expressions of a row from position k on. */
  function StepExprs(o: Oracle, jumps: map<nat, nat>, m: Machine, row: Row, k: nat): (r: Machine)
    requires m.Ok() && k <= |row|
    ensures r.Ok()
    decreases |row| - k
  {
    if k == |row| then m
    else
      var f := StepExpr(o, jumps, m, row[k]);
      if f.leave then f.m else StepExprs(o, jumps, f.m, row, k + 1)
  }

  predicate Live(rows: seq<Row>, m: Machine) {
    m.status.Running? && 0 <= m.idx < |rows|
  }

  /** One row: the body of the row loop. */
  function StepRow(o: Oracle, rows: seq<Row>, jumps: map<nat, nat>, m: Machine): (r: Machine)
    requires m.Ok() && Live(rows, m)
    ensures r.Ok() && (r.status.Running? ==> r.idx >= 0)
  {
    var row := rows[m.idx];
    var m1 := if HasOpen(row) then m.Emit([Append]) else m;
    var m2 := StepExprs(o, jumps, m1, row, 0);
    if m2.status.Running? then m2.(idx := m2.idx + 1, input := []) else m2
  }

  /** At most n rows. */
  function Run(o: Oracle, rows: seq<Row>, jumps: map<nat, nat>, m: Machine, n: nat): (r: Machine)
    requires m.Ok()
    ensures r.Ok()
    decreases n
  {
    if n == 0 || !Live(rows, m) then m
    else Run(o, rows, jumps, StepRow(o, rows, jumps, m), n - 1)
  }

  const Start := Machine(0, [], None, [], [], [], Running)

  lemma {:induction false} RunAdd(o: Oracle, rows: seq<Row>, jumps: map<nat, nat>, m: Machine, a: nat, b: nat)
    requires m.Ok()
    ensures Run(o, rows, jumps, m, a + b) == Run(o, rows, jumps, Run(o, rows, jumps, m, a), b)
    decreases a
  {
    hide StepRow;
    if a > 0 && Live(rows, m) {
      var s := StepRow(o, rows, jumps, m);
      assert Run(o, rows, jumps, m, a) == Run(o, rows, jumps, s, a - 1);
      assert Run(o, rows, jumps, m, a + b) == Run(o, rows, jumps, s, a - 1 + b);
      RunAdd(o, rows, jumps, s, a - 1, b);
    }
  }

  // ----- Templates without a range only move forward -----

  /** What parsing guarantees of a pipeline: these expressions come first or not at all. */
  predicate Parsed(row: Row) {
    forall k :: 0 < k < |row| ==>
      !row[k].func.If? && !row[k].func.ElseIf? && !row[k].func.Else? && !row[k].func.Range? && !row[k].func.Break?
  }

  predicate RangeFree(row: Row) {
    forall k :: 0 <= k < |row| ==> !row[k].func.Range?
  }

  /** The table is the one that Build makes of the rows. */
  ghost predicate IsBuilt(rows: seq<Row>, jumps: map<nat, nat>) {
    LinkAll(rows, 0, NoLinks).Built? && jumps == LinkAll(rows, 0, NoLinks).links.jumps
  }

  /** A row that is never followed by an earlier one: it has a jump, or it is neither an "else" nor,
      behind the first row, an "if" that can be false. Only a block that is never closed lacks one. */
  predicate GoesForward(rows: seq<Row>, jumps: map<nat, nat>, k: nat)
    requires k < |rows|
  {
    k in jumps || rows[k] == [] ||
    (!rows[k][0].func.Else? && (k == 0 || !rows[k][0].func.If? || Formless(rows[k][0])))
  }

  lemma ExprGoesForward(o: Oracle, jumps: map<nat, nat>, m: Machine, e: Expr)
    requires Forward(jumps) && m.Ok() && m.current.None? && m.status.Running? && m.idx >= 0
    requires !e.func.Range?
    requires m.idx !in jumps ==> !e.func.Else? && (m.idx == 0 || !e.func.If? || Formless(e))
    ensures var f := StepExpr(o, jumps, m, e);
            && f.m.current.None?
            && (f.m.status.Running? ==> f.m.idx >= m.idx)
            && (!f.leave ==> f.m.idx == m.idx && f.m.status.Running?)
  {
  }

  lemma {:induction false} ExprsGoForward(o: Oracle, rows: seq<Row>, jumps: map<nat, nat>, m: Machine, k: nat)
    requires m.Ok() && m.current.None? && Live(rows, m) && k <= |rows[m.idx]|
    requires Forward(jumps) && Parsed(rows[m.idx]) && RangeFree(rows[m.idx]) && GoesForward(rows, jumps, m.idx)
    ensures var r := StepExprs(o, jumps, m, rows[m.idx], k);
            r.current.None? && (r.status.Running? ==> r.idx >= m.idx)
    decreases |rows[m.idx]| - k
  {
    hide StepExpr;
    var row := rows[m.idx];
    if k < |row| {
      var f := StepExpr(o, jumps, m, row[k]);
      ExprGoesForward(o, jumps, m, row[k]);
      if !f.leave {
        ExprsGoForward(o, rows, jumps, f.m, k + 1);
      }
    }
  }

  lemma RowGoesForward(o: Oracle, rows: seq<Row>, jumps: map<nat, nat>, m: Machine)
    requires m.Ok() && m.current.None? && Live(rows, m)
    requires IsBuilt(rows, jumps) && Parsed(rows[m.idx]) && RangeFree(rows[m.idx]) && GoesForward(rows, jumps, m.idx)
    ensures var r := StepRow(o, rows, jumps, m);
            r.current.None? && (r.status.Running? ==> r.idx > m.idx)
  {
    LinkAllKeepsOk(rows, 0, NoLinks);
    hide LinkAll, StepExprs, GoesForward;
    var row := rows[m.idx];
    ExprsGoForward(o, rows, jumps, if HasOpen(row) then m.Emit([Append]) else m, 0);
  }

  /** The machine before row k, when nothing has happened yet. */
  function AtRow(k: nat): Machine {
    Machine(k, [], None, [], [], [], Running)
  }

  /** Every condition is false, everything else succeeds. */
  const AllFalse := Oracle(
    (t: Trace, e: Expr, input: seq<Value>) => Outcome([if e.func.If? then Bool(false) else Other(0)], false),
    (t, e, input) => None)

  lemma RowGoesBack(rows: seq<Row>, jumps: map<nat, nat>, k: nat)
    requires k < |rows| && !GoesForward(rows, jumps, k)
    ensures var r := StepRow(AllFalse, rows, jumps, AtRow(k)); r.status.Running? && r.idx <= k
  {
  }

  /** Whatever expressions return, a row without a range is followed by a later one or ends the run, if
      and only if it is not left without the jump that it needs. */
  lemma RowGoesForwardIff(rows: seq<Row>, jumps: map<nat, nat>, k: nat)
    requires IsBuilt(rows, jumps) && k < |rows| && Parsed(rows[k]) && RangeFree(rows[k])
    ensures GoesForward(rows, jumps, k) <==>
            forall o, m: Machine :: m.Ok() && m.current.None? && Live(rows, m) && m.idx == k ==>
              var r := StepRow(o, rows, jumps, m); r.status.Running? ==> r.idx > k
  {
    hide StepRow, IsBuilt, GoesForward;
    if GoesForward(rows, jumps, k) {
      forall o, m: Machine | m.Ok() && m.current.None? && Live(rows, m) && m.idx == k
        ensures var r := StepRow(o, rows, jumps, m); r.status.Running? ==> r.idx > k
      {
        RowGoesForward(o, rows, jumps, m);
      }
    } else {
      RowGoesBack(rows, jumps, k);
      assert Live(rows, AtRow(k));
    }
  }

  /** A built template without a range in which every row goes forward. */
  ghost predicate Straight(rows: seq<Row>, jumps: map<nat, nat>) {
    && IsBuilt(rows, jumps)
    && forall k :: 0 <= k < |rows| ==> Parsed(rows[k]) && RangeFree(rows[k]) && GoesForward(rows, jumps, k)
  }

  /** Rows go forward if every block is closed. */
  lemma ClosedIsStraight(rows: seq<Row>, jumps: map<nat, nat>)
    requires IsBuilt(rows, jumps) && Balance(rows) == 0
    requires forall k :: 0 <= k < |rows| ==> Parsed(rows[k]) && RangeFree(rows[k])
    ensures Straight(rows, jumps)
  {
    hide LinkAll;
    JumpsAreMatches(rows);
    forall k | 0 <= k < |rows|
      ensures GoesForward(rows, jumps, k)
    {
      assert k !in jumps ==> !IsSource(rows[k]);
    }
  }

  /** Whatever the expressions yield, such a template visits rows in strictly increasing order and so
      stops after at most as many rows as it has. */
  lemma {:induction false} StraightStops(o: Oracle, rows: seq<Row>, jumps: map<nat, nat>, m: Machine, n: nat)
    requires Straight(rows, jumps)
    requires m.Ok() && m.current.None? && m.idx >= 0 && n >= |rows| - m.idx
    ensures !Live(rows, Run(o, rows, jumps, m, n))
    ensures forall k: nat :: k <= n && Live(rows, Run(o, rows, jumps, m, k)) ==> Run(o, rows, jumps, m, k).idx >= m.idx + k
    decreases n
  {
    hide StepRow, IsBuilt, GoesForward;
    if n > 0 && Live(rows, m) {
      RowGoesForward(o, rows, jumps, m);
      var r := StepRow(o, rows, jumps, m);
      if r.status.Running? {
        StraightStops(o, rows, jumps, r, n - 1);
      }
      forall k: nat | k <= n && Live(rows, Run(o, rows, jumps, m, k))
        ensures Run(o, rows, jumps, m, k).idx >= m.idx + k
      {
        if k > 0 {
          assert Run(o, rows, jumps, m, k) == Run(o, rows, jumps, r, k - 1);
        }
      }
    }
  }

  // ----- A block that is never closed -----

  const CallRow: Row := [Expr(Call("f"), [])]
  const IfEndRow: Row := [Expr(If, [".x"]), Expr(End, [])]

  /** The parser takes the last row for a closed block; Build leaves the block open. */
  const OpenRows := [CallRow, CallRow, IfEndRow]

  lemma OpenRowsBuild()
    ensures LinkAll(OpenRows, 0, NoLinks) == Built(Links([2], map[]))
    ensures forall k :: 0 <= k < |OpenRows| ==> Parsed(OpenRows[k]) && RangeFree(OpenRows[k])
  {
    assert KindOf(CallRow) == Plain && KindOf(IfEndRow) == Opening;
    assert OpenRows[1..] == [CallRow, IfEndRow] && [CallRow, IfEndRow][1..] == [IfEndRow];
    assert LinkAll([IfEndRow], 2, NoLinks) == LinkAll([], 3, Links([2], map[]));
    assert LinkAll([CallRow, IfEndRow], 1, NoLinks) == LinkAll([IfEndRow], 2, NoLinks);
  }

  lemma {:induction false} OpenRowsLoop(m: Machine, n: nat)
    requires m.Ok() && m.current.None? && m.status.Running? && 0 <= m.idx <= 2
    ensures Live(OpenRows, Run(AllFalse, OpenRows, map[], m, n))
    decreases n
  {
    if n > 0 {
      var r := StepRow(AllFalse, OpenRows, map[], m);
      assert r.status.Running? && 0 <= r.idx <= 2 && r.current.None? by {
        OpenRowsStep(m);
      }
      OpenRowsLoop(r, n - 1);
    }
  }

  lemma OpenRowsStep(m: Machine)
    requires m.Ok() && m.current.None? && m.status.Running? && 0 <= m.idx <= 2
    ensures var r := StepRow(AllFalse, OpenRows, map[], m);
            r.status.Running? && 0 <= r.idx <= 2 && r.current.None?
  {
    hide HasOpen;
    var row := OpenRows[m.idx];
    var m1 := if HasOpen(row) then m.Emit([Append]) else m;
    var f := StepExpr(AllFalse, map[], m1, row[0]);
    assert StepExprs(AllFalse, map[], m1, row, 0) == f.m;
  }

  /** A false "if" that is never closed sends the run back to row 1, so that it never ends. */
  lemma OpenBlockLoops(n: nat)
    ensures LinkAll(OpenRows, 0, NoLinks) == Built(Links([2], map[]))
    ensures forall k :: 0 <= k < |OpenRows| ==> Parsed(OpenRows[k]) && RangeFree(OpenRows[k])
    ensures Live(OpenRows, Run(AllFalse, OpenRows, map[], Start, n))
  {
    OpenRowsBuild();
    OpenRowsLoop(Start, n);
  }

  // ----- Execute -----

  class TemplateRuntime {
    const oracle: Oracle
    const exps: seq<Row>
    const indexRun: map<nat, nat>
    var cells: seq<RangeValue>
    var rangeValue: Option<nat>
    var expInput: seq<Value>
    var trace: Trace

    constructor (o: Oracle, rows: seq<Row>, jumps: map<nat, nat>)
      ensures oracle == o && exps == rows && indexRun == jumps
      ensures At(0, [], Running) == Start
    {
      oracle, exps, indexRun := o, rows, jumps;
      cells, rangeValue, expInput, trace := [], None, [], [];
    }

    /** The state of the machine while row `idx` runs. */
    function At(idx: int, rangeStack: seq<nat>, status: Status): Machine
      reads this
    {
      Machine(idx, cells, rangeValue, rangeStack, expInput, trace, status)
    }

    /** Binds the current element of a range in the innermost scope. */
    method PushElement(c: nat)
      requires c < |cells| && cells[c].index < |cells[c].items|
      modifies this
      ensures rangeValue == old(rangeValue) && expInput == old(expInput)
      ensures forall idx, st, s :: old(At(idx, st, s)).Ok() ==> At(idx, st, s) == NextElement(old(At(idx, st, s)), c)
    {
      var v := cells[c];
      trace := trace + [Bind(v.keyVar, Str(v.items[v.index].key)), Bind(v.valueVar, v.items[v.index].value)];
      cells := cells[c := v.(index := v.index + 1)];
    }

    method BeginRange(e: Expr, items: seq<Item>, idx0: int, rangeStack0: seq<nat>)
      returns (idx: int, rangeStack: seq<nat>, status: Status)
      requires At(idx0, rangeStack0, Running).Ok()
      modifies this
      ensures At(idx, rangeStack, status) == StartRange(indexRun, old(At(idx0, rangeStack0, Running)), e, items)
    {
      idx, rangeStack, status := idx0, rangeStack0, Running;
      if |e.params| < 3 {
        status := Panicked;
        return;
      }
      var c := |cells|;
      cells := cells + [RangeValue(items, idx, 0, Jump(indexRun, idx), e.params[1], e.params[2])];
      rangeValue := Some(c);
      if |items| == 0 {
        idx := Jump(indexRun, idx) - 1;
      } else {
        PushElement(c);
        rangeStack := rangeStack + [c];
      }
    }

    method CloseBlock(idx0: int, rangeStack0: seq<nat>) returns (idx: int, rangeStack: seq<nat>)
      requires At(idx0, rangeStack0, Running).Ok()
      modifies this
      ensures At(idx, rangeStack, Running) == EndBlock(old(At(idx0, rangeStack0, Running)))
    {
      idx, rangeStack := idx0, rangeStack0;
      trace := trace + [Pop];
      if rangeValue.Some? && cells[rangeValue.value].end == idx {
        var v := cells[rangeValue.value];
        if |v.items| - 1 >= v.index {
          idx := v.start;
          trace := trace + [Append];
          PushElement(rangeValue.value);
        } else if |rangeStack| > 0 {
          rangeStack := rangeStack[..|rangeStack| - 1];
          if |rangeStack| == 0 {
            rangeValue := None;
          } else {
            rangeValue := Some(rangeStack[|rangeStack| - 1]);
            var w := cells[rangeValue.value];
            if |w.items| - 1 >= w.index {
              trace := trace + [Pop];
              idx := w.start;
              trace := trace + [Append];
              assert old(trace) + [Pop] + [Pop] + [Append] == old(trace) + [Pop] + [Pop, Append];
              PushElement(rangeValue.value);
            }
          }
        }
      }
    }

    /** One expression of the row. */
    method Step(e: Expr, idx0: int, rangeStack0: seq<nat>)
      returns (idx: int, rangeStack: seq<nat>, status: Status, leave: bool)
      requires At(idx0, rangeStack0, Running).Ok()
      modifies this
      ensures Flow(At(idx, rangeStack, status), leave) == StepExpr(oracle, indexRun, old(At(idx0, rangeStack0, Running)), e)
      ensures !leave ==> status.Running?
    {
      idx, rangeStack, status, leave := idx0, rangeStack0, Running, false;
      var r := oracle.Evaluate(trace, e, expInput);
      var items := oracle.Elements(trace, e, expInput);
      trace := trace + Effects(e, expInput, r);
      if e.func.Send? || e.func.SendSync? {
        if r.err || |r.out| == 0 {
          status, leave := SendFailed, true;
        } else if e.func.SendSync? {
          status, leave := Suspended, true;
        }
        return;
      }
      if e.func.Range? && !r.err {
        idx, rangeStack, status := BeginRange(e, items, idx, rangeStack);
        if !status.Running? {
          leave := true;
          return;
        }
      }
      if e.func.Return? {
        status, leave := Returned, true;
        return;
      }
      if e.func.End? {
        idx, rangeStack := CloseBlock(idx, rangeStack);
      }
      if e.func.Break? {
        rangeValue := None;
      }
      if r.err && Jump(indexRun, idx) == 0 {
        status, leave := Failed, true;
      } else if e.func.Else? {
        idx, leave := Jump(indexRun, idx) - 1, true;
      } else if e.func.If? && IsFalse(r.out) {
        idx, leave := Jump(indexRun, idx), true;
      } else if (IsEmpty(r.out) || r.err) && Jump(indexRun, idx) > 0 {
        idx, leave := Jump(indexRun, idx), true;
      } else {
        expInput := r.out;
      }
    }

    /** One row. */
    method ExecuteRow(idx0: nat, rangeStack0: seq<nat>)
      returns (idx: int, rangeStack: seq<nat>, status: Status)
      requires idx0 < |exps| && At(idx0, rangeStack0, Running).Ok()
      modifies this
      ensures At(idx, rangeStack, status) == StepRow(oracle, exps, indexRun, old(At(idx0, rangeStack0, Running)))
    {
      hide StepExpr;
      idx, rangeStack, status := idx0, rangeStack0, Running;
      var row := exps[idx];
      var opens := OpensBlock(row);
      if opens {
        trace := trace + [Append];
      }
      ghost var goal := StepExprs(oracle, indexRun, At(idx, rangeStack, Running), row, 0);
      var edx := 0;
      while edx < |row|
        invariant 0 <= edx <= |row| && status.Running?
        invariant At(idx, rangeStack, status).Ok()
        invariant StepExprs(oracle, indexRun, At(idx, rangeStack, status), row, edx) == goal
      {
        var leave;
        idx, rangeStack, status, leave := Step(row[edx], idx, rangeStack);
        if leave {
          break;
        }
        edx := edx + 1;
      }
      assert At(idx, rangeStack, status) == goal;
      if status.Running? {
        idx := idx + 1;
        expInput := [];
      }
    }

    method OpensBlock(row: Row) returns (b: bool)
      ensures b == HasOpen(row)
    {
      for k := 0 to |row|
        invariant forall i :: 0 <= i < k ==> !Opens(row[i].func)
      {
        if Opens(row[k].func) {
          return true;
        }
      }
      return false;
    }

    /** Runs the template from its first row. The loop stops whenever the machine does, after some
        number of rows; `rows` witnesses that number. */
    method Execute(ghost rows: nat) returns (idx: int, rangeStack: seq<nat>, status: Status)
      requires At(0, [], Running) == Start
      requires !Live(exps, Run(oracle, exps, indexRun, Start, rows))
      modifies this
      ensures At(idx, rangeStack, status) == Run(oracle, exps, indexRun, Start, rows)
    {
      hide StepRow;
      idx, rangeStack, status := 0, [], Running;
      ghost var left := rows;
      while status.Running? && idx < |exps|
        invariant At(idx, rangeStack, status).Ok() && (status.Running? ==> idx >= 0)
        invariant Run(oracle, exps, indexRun, At(idx, rangeStack, status), left) == Run(oracle, exps, indexRun, Start, rows)
        decreases left
      {
        idx, rangeStack, status := ExecuteRow(idx, rangeStack);
        left := left - 1;
      }
    }
  }
}
