/**
  What variables name while a template runs: the trace replayed on the stack of scopes.

  The stack is described by what each name stands for when only the scopes up to a depth are left. The
  heap structure of module VarTemp follows it, and in every iteration of a range the range's variables
  stand for the element, at every row, as long as no row rebinds them.
 */
module Variables {
  import opened Common
  import opened Template
  import opened Runtime
  import opened Structured
  import opened Reach
  import S = Simulation
  import V = VarTemp

  type Env = map<string, Value>

  /** One environment for each depth: what names stand for with the scopes up to that one. */
  type Envs = seq<Env>

  /** Setting a name gives it the value at every depth that knows it, and in any case at the top. */
  function SetAll(envs: Envs, k: string, v: Value): Envs {
    seq(|envs|, d requires 0 <= d < |envs| => if k in envs[d] || d == |envs| - 1 then envs[d][k := v] else envs[d])
  }

  function BindTop(envs: Envs, k: string, v: Value): Envs {
    if envs == [] then [] else envs[|envs| - 1 := envs[|envs| - 1][k := v]]
  }

  /** The name that evaluating an expression sets or defines. */
  function SetsName(e: Expr): Option<string> {
    if e.func == Call("set") && e.params != [] then Some(e.params[0]) else None
  }

  function DefinesName(e: Expr): Option<string> {
    if e.func == Call("define") && e.params != [] then Some(e.params[0]) else None
  }

  function ValueOf(r: Outcome): Value {
    if r.out == [] then Other(0) else r.out[0]
  }

  function After(envs: Envs, ev: Event): Envs {
    match ev
    case Append => envs + [if envs == [] then map[] else envs[|envs| - 1]]
    case Pop => if envs == [] then [] else envs[..|envs| - 1]
    case Clear =>
      if envs == [] then []
      else envs[|envs| - 1 := if |envs| == 1 then map[] else envs[|envs| - 2]]
    case Bind(k, v) => BindTop(envs, k, v)
    case Eval(e, _, r) =>
      if r.err then envs
      else if SetsName(e).Some? then SetAll(envs, SetsName(e).value, ValueOf(r))
      else if DefinesName(e).Some? then BindTop(envs, DefinesName(e).value, ValueOf(r))
      else envs
  }

  /** The scopes after a trace; a run starts with one empty scope. */
  function Replay(t: Trace): Envs {
    if t == [] then [map[]] else After(Replay(t[..|t| - 1]), t[|t| - 1])
  }

  // ----- Names that keep their value -----

  /** From depth n on, k stands for v. */
  ghost predicate Keeps(envs: Envs, n: nat, k: string, v: Value) {
    1 <= n <= |envs| && forall d :: n - 1 <= d < |envs| ==> k in envs[d] && envs[d][k] == v
  }

  /** An expression that does not set or define k. */
  predicate Spares(e: Expr, k: string) {
    SetsName(e) != Some(k) && DefinesName(e) != Some(k)
  }

  predicate SparesRow(row: Row, k: string) {
    forall i :: 0 <= i < |row| ==> Spares(row[i], k)
  }

  predicate SparesStmt(s: Stmt, k: string) {
    match s
    case Line(row) => SparesRow(row, k)
    case Guard(h, body) => SparesRow(h, k) && SparesAll(body, k)
    case GuardElse(h, body, els) => SparesRow(h, k) && SparesAll(body, k) && SparesAll(els, k)
    case Loop(range, body) => (|range.params| >= 3 ==> range.params[1] != k && range.params[2] != k) && SparesAll(body, k)
  }

  /** No row of the program sets, defines or ranges over k. */
  predicate SparesAll(p: Prog, k: string) {
    p.Cons? ==> SparesStmt(p.head, k) && SparesAll(p.tail, k)
  }

  /** The event leaves what k stands for alone, unless it closes a scope. */
  predicate Harmless(ev: Event, k: string) {
    match ev
    case Append => true
    case Pop => false
    case Clear => false
    case Bind(x, _) => x != k
    case Eval(e, _, _) => Spares(e, k)
  }

  lemma HarmlessKeeps(envs: Envs, ev: Event, n: nat, k: string, v: Value)
    requires Keeps(envs, n, k, v) && (Harmless(ev, k) || (ev.Pop? && n < |envs|))
    ensures Keeps(After(envs, ev), n, k, v)
    ensures |After(envs, ev)| == |envs| + if ev.Append? then 1 else if ev.Pop? then -1 else 0
  {
  }

  /** At every point between the traces t and t', and at both, k keeps its value. */
  ghost predicate Throughout(t: Trace, t': Trace, n: nat, k: string, v: Value) {
    t <= t' && forall i :: |t| <= i <= |t'| ==> Keeps(Replay(t'[..i]), n, k, v)
  }

  lemma ThroughoutTrans(a: Trace, b: Trace, c: Trace, n: nat, k: string, v: Value)
    requires Throughout(a, b, n, k, v) && Throughout(b, c, n, k, v)
    ensures Throughout(a, c, n, k, v)
  {
    forall i | |a| <= i <= |c|
      ensures Keeps(Replay(c[..i]), n, k, v)
    {
      if i <= |b| { assert c[..i] == b[..i]; }
    }
  }

  lemma ThroughoutNow(t: Trace, n: nat, k: string, v: Value)
    requires Keeps(Replay(t), n, k, v)
    ensures Throughout(t, t, n, k, v)
  {
    assert t[..|t|] == t;
  }

  /** One more event. */
  lemma ThroughoutOne(t: Trace, ev: Event, n: nat, k: string, v: Value)
    requires Keeps(Replay(t), n, k, v) && (Harmless(ev, k) || (ev.Pop? && n < |Replay(t)|))
    ensures Throughout(t, t + [ev], n, k, v)
    ensures |Replay(t + [ev])| == |Replay(t)| + if ev.Append? then 1 else if ev.Pop? then -1 else 0
  {
    assert (t + [ev])[..|t|] == t && (t + [ev])[..|t| + 1] == t + [ev];
    HarmlessKeeps(Replay(t), ev, n, k, v);
  }

  /** A part that has run from t to t': k keeps its value, and if it has ended, the scopes that were open
      still are. */
  ghost predicate Runs(t: Trace, t': Trace, ended: bool, n: nat, k: string, v: Value) {
    Throughout(t, t', n, k, v) && (ended ==> |Replay(t)| <= |Replay(t')|)
  }

  lemma RunsTrans(a: Trace, b: Trace, c: Trace, ended: bool, n: nat, k: string, v: Value)
    requires Runs(a, b, true, n, k, v) && Runs(b, c, ended, n, k, v)
    ensures Runs(a, c, ended, n, k, v)
  {
    ThroughoutTrans(a, b, c, n, k, v);
  }

  /** Harmless events open and close no scope but by "if"s of their own. */
  lemma {:induction false} RunsEvents(t: Trace, events: Trace, n: nat, k: string, v: Value)
    requires Keeps(Replay(t), n, k, v) && forall i :: 0 <= i < |events| ==> Harmless(events[i], k)
    ensures Runs(t, t + events, true, n, k, v)
    ensures events != [] && events[0].Append? ==> |Replay(t)| < |Replay(t + events)|
    decreases |events|
  {
    ThroughoutNow(t, n, k, v);
    if events == [] {
      assert t + events == t;
    } else {
      ThroughoutOne(t, events[0], n, k, v);
      var t1 := t + [events[0]];
      assert t1[..|t1|] == t1;
      assert t + events == t1 + events[1..];
      RunsEvents(t1, events[1..], n, k, v);
      ThroughoutTrans(t, t1, t + events, n, k, v);
    }
  }

  /** The "end" of a block closes one scope. */
  lemma RunsEnd(t: Trace, events: Trace, n: nat, k: string, v: Value)
    requires Keeps(Replay(t), n, k, v) && n < |Replay(t)| && (events == EndEvents || events == [ElseEvent] + EndEvents)
    ensures Throughout(t, t + events, n, k, v) && |Replay(t + events)| == |Replay(t)| - 1
  {
    hide Replay, Keeps, Throughout;
    var front := if events == EndEvents then [EndEvents[0]] else [ElseEvent, EndEvents[0]];
    assert events == front + [Pop];
    var t1 := t + front;
    EvalsDepth(t, front, n, k, v);
    ThroughoutOne(t1, Pop, n, k, v);
    assert t + events == t1 + [Pop];
    ThroughoutTrans(t, t1, t + events, n, k, v);
  }

  lemma {:induction false} EvalsDepth(t: Trace, events: Trace, n: nat, k: string, v: Value)
    requires Keeps(Replay(t), n, k, v) && forall i :: 0 <= i < |events| ==> events[i].Eval? && Harmless(events[i], k)
    ensures Throughout(t, t + events, n, k, v) && |Replay(t + events)| == |Replay(t)|
    ensures Keeps(Replay(t + events), n, k, v)
    decreases |events|
  {
    ThroughoutNow(t, n, k, v);
    if events == [] {
      assert t + events == t;
    } else {
      ThroughoutOne(t, events[0], n, k, v);
      var t1 := t + [events[0]];
      assert t1[..|t1|] == t1;
      assert t + events == t1 + events[1..];
      EvalsDepth(t1, events[1..], n, k, v);
      ThroughoutTrans(t, t1, t + events, n, k, v);
    }
  }

  lemma {:induction false} ChainRuns(o: Oracle, row: Row, j: nat, guarded: bool, t: Trace, input: seq<Value>, n: nat, k: string, v: Value)
    requires j <= |row| && SparesRow(row, k) && !HasElseIf(row) && Keeps(Replay(t), n, k, v)
    ensures Runs(t, Chain(o, row, j, guarded, t, input).trace, true, n, k, v)
    ensures Keeps(Replay(Chain(o, row, j, guarded, t, input).trace), n, k, v)
    decreases |row| - j
  {
    hide Replay, Keeps, Throughout;
    if j == |row| {
      ThroughoutNow(t, n, k, v);
    } else {
      var r := o.Evaluate(t, row[j], input);
      var t' := t + Effects(row[j], input, r);
      RunsEvents(t, Effects(row[j], input, r), n, k, v);
      ThroughoutEnd(t, t', n, k, v);
      var next := if row[j].func.Send? then input else r.out;
      ChainRuns(o, row, j + 1, guarded, t', next, n, k, v);
      var all := Chain(o, row, j, guarded, t, input);
      if all.trace != t' {
        assert all == Chain(o, row, j + 1, guarded, t', next);
        RunsTrans(t, t', all.trace, true, n, k, v);
      }
    }
  }

  predicate HasElseIf(row: Row) {
    exists i :: 0 <= i < |row| && row[i].func.ElseIf?
  }

  lemma ThroughoutEnd(t: Trace, t': Trace, n: nat, k: string, v: Value)
    requires Throughout(t, t', n, k, v)
    ensures Keeps(Replay(t), n, k, v) && Keeps(Replay(t'), n, k, v)
  {
    assert t'[..|t'|] == t' && t'[..|t|] == t;
  }

  lemma {:induction false} StmtRuns(o: Oracle, s: Stmt, st: State, n: nat, k: string, v: Value)
    requires WfStmt(s) && st.status.Running? && SparesStmt(s, k) && Keeps(Replay(st.trace), n, k, v)
    ensures var st' := MeaningStmt(o, s, st); Runs(st.trace, st'.trace, st'.status.Running?, n, k, v)
    decreases s, 1
  {
    hide Replay, Keeps, Throughout, Chain, Meaning, Iterate;
    var t := st.trace + [Append];
    RunsEvents(st.trace, [Append], n, k, v);
    ThroughoutEnd(st.trace, t, n, k, v);
    match s
    case Line(row) =>
      ChainRuns(o, row, 0, false, st.trace, [], n, k, v);
    case Guard(h, body) =>
      ChainRuns(o, h, 0, true, t, [], n, k, v);
      var t1 := Chain(o, h, 0, true, t, []).trace;
      RunsTrans(st.trace, t, t1, true, n, k, v);
      BlockRuns(o, body, st, t1, EndEvents, n, k, v);
    case GuardElse(h, body, els) =>
      ChainRuns(o, h, 0, true, t, [], n, k, v);
      var t1 := Chain(o, h, 0, true, t, []).trace;
      RunsTrans(st.trace, t, t1, true, n, k, v);
      BlockRuns(o, body, st, t1, [ElseEvent] + EndEvents, n, k, v);
      BlockRuns(o, els, st, t1, EndEvents, n, k, v);
    case Loop(range, body) =>
      LoopRuns(o, range, body, st, n, k, v);
  }

  /** A block whose header has led from st to t. */
  lemma {:induction false} BlockRuns(o: Oracle, body: Prog, st: State, t: Trace, events: Trace, n: nat, k: string, v: Value)
    requires Wf(body) && st.status.Running? && SparesAll(body, k)
    requires Runs(st.trace, t, true, n, k, v) && |Replay(st.trace)| < |Replay(t)|
    requires events == EndEvents || events == [ElseEvent] + EndEvents
    ensures var st' := Finish(Meaning(o, body, st.(trace := t)), events);
            Runs(st.trace, st'.trace, st'.status.Running?, n, k, v)
    decreases body, 1
  {
    hide Replay, Throughout, Meaning;
    var inner := Meaning(o, body, st.(trace := t));
    ThroughoutEnd(st.trace, t, n, k, v);
    MeaningRuns(o, body, st.(trace := t), n, k, v);
    RunsTrans(st.trace, t, inner.trace, inner.status.Running?, n, k, v);
    if inner.status.Running? {
      ThroughoutEnd(st.trace, inner.trace, n, k, v);
      RunsEnd(inner.trace, events, n, k, v);
      ThroughoutTrans(st.trace, inner.trace, inner.trace + events, n, k, v);
    }
  }

  lemma {:induction false} LoopRuns(o: Oracle, range: Expr, body: Prog, st: State, n: nat, k: string, v: Value)
    requires WfStmt(Loop(range, body)) && st.status.Running? && SparesStmt(Loop(range, body), k)
    requires Keeps(Replay(st.trace), n, k, v)
    ensures var st' := MeaningStmt(o, Loop(range, body), st); Runs(st.trace, st'.trace, st'.status.Running?, n, k, v)
    decreases Loop(range, body), 0
  {
    hide Replay, Throughout, Meaning, Iterate;
    var t := st.trace + [Append];
    var head := [Append, Eval(range, [], o.Evaluate(t, range, []))];
    var t' := t + [head[1]];
    assert t' == st.trace + head;
    RunsEvents(st.trace, head, n, k, v);
    ThroughoutEnd(st.trace, t', n, k, v);
    match o.items(t, range, [])
    case None =>
    case Some(items) =>
      if items == [] {
        RunsEnd(t', EndEvents, n, k, v);
        ThroughoutTrans(st.trace, t', t' + EndEvents, n, k, v);
      } else {
        IterateRuns(o, range, body, items, 0, st.(trace := t'), n, k, v);
        var st' := MeaningStmt(o, Loop(range, body), st);
        ThroughoutTrans(st.trace, t', st'.trace, n, k, v);
      }
  }

  /** The iterations of a range, in a scope that is open already and that the last one closes. */
  lemma {:induction false} IterateRuns(o: Oracle, range: Expr, body: Prog, items: seq<Item>, j: nat, st: State, n: nat, k: string, v: Value)
    requires Wf(body) && |range.params| >= 3 && j < |items| && st.status.Running? && SparesStmt(Loop(range, body), k)
    requires Keeps(Replay(st.trace), n, k, v) && n < |Replay(st.trace)|
    ensures var st' := Iterate(o, range, body, items, j, st);
            && Throughout(st.trace, st'.trace, n, k, v)
            && (st'.status.Running? ==> |Replay(st.trace)| <= |Replay(st'.trace)| + 1)
    decreases body, 1 + |items| - j
  {
    hide Replay, Throughout, Meaning, Keeps;
    var bound := st.Emit(Binds(range, items[j]));
    assert k != range.params[1] && k != range.params[2];
    RunsEvents(st.trace, Binds(range, items[j]), n, k, v);
    ThroughoutEnd(st.trace, bound.trace, n, k, v);
    MeaningRuns(o, body, bound, n, k, v);
    var inner := Meaning(o, body, bound);
    ThroughoutTrans(st.trace, bound.trace, inner.trace, n, k, v);
    if inner.status.Running? {
      var after := inner.Emit(EndEvents);
      ThroughoutEnd(st.trace, inner.trace, n, k, v);
      RunsEnd(inner.trace, EndEvents, n, k, v);
      ThroughoutTrans(st.trace, inner.trace, after.trace, n, k, v);
      if j + 1 < |items| {
        ThroughoutEnd(st.trace, after.trace, n, k, v);
        ThroughoutOne(after.trace, Append, n, k, v);
        var next := after.Emit([Append]);
        ThroughoutTrans(st.trace, after.trace, next.trace, n, k, v);
        ThroughoutEnd(st.trace, next.trace, n, k, v);
        KeepsSize(next.trace, n, k, v);
        IterateRuns(o, range, body, items, j + 1, next, n, k, v);
        ThroughoutTrans(st.trace, next.trace, Iterate(o, range, body, items, j + 1, next).trace, n, k, v);
      }
    }
  }

  lemma KeepsSize(t: Trace, n: nat, k: string, v: Value)
    requires Keeps(Replay(t), n, k, v)
    ensures 1 <= n <= |Replay(t)|
  {
  }

  lemma {:induction false} MeaningRuns(o: Oracle, p: Prog, st: State, n: nat, k: string, v: Value)
    requires Wf(p) && st.status.Running? && SparesAll(p, k) && Keeps(Replay(st.trace), n, k, v)
    ensures var st' := Meaning(o, p, st); Runs(st.trace, st'.trace, st'.status.Running?, n, k, v)
    decreases p, 0
  {
    hide Replay, Throughout, MeaningStmt, Keeps, SparesStmt;
    if p.Cons? {
      var st1 := MeaningStmt(o, p.head, st);
      StmtRuns(o, p.head, st, n, k, v);
      if st1.status.Running? {
        ThroughoutEnd(st.trace, st1.trace, n, k, v);
        MeaningRuns(o, p.tail, st1, n, k, v);
        RunsTrans(st.trace, st1.trace, Meaning(o, p.tail, st1).trace, Meaning(o, p.tail, st1).status.Running?, n, k, v);
      }
    } else {
      ThroughoutNow(st.trace, n, k, v);
    }
  }

  // ----- The elements of a range -----

  /** What a name stands for after a trace. */
  function LookUp(t: Trace, k: string): Option<Value> {
    var envs := Replay(t);
    if envs == [] || k !in envs[|envs| - 1] then None else Some(envs[|envs| - 1][k])
  }

  /** At every point between the traces t and t', and at both, k stands for v. */
  ghost predicate Stands(t: Trace, t': Trace, k: string, v: Value) {
    forall i :: |t| <= i <= |t'| ==> LookUp(t'[..i], k) == Some(v)
  }

  /** In the iterations from j on, which belong to the trace all, the value variable stands for the
      element's value as long as the body spares it, and the key variable for its key unless it has the
      same name; and so for the ranges in the body. */
  ghost predicate Named(all: Trace, o: Oracle, range: Expr, body: Prog, items: seq<Item>, j: nat, st: State)
    requires Wf(body) && |range.params| >= 3 && j < |items|
    decreases body, 1 + |items| - j
  {
    var bound := st.Emit(Binds(range, items[j]));
    var inner := Meaning(o, body, bound);
    var key, value := range.params[1], range.params[2];
    && bound.trace <= inner.trace <= all
    && (SparesAll(body, value) ==> Stands(bound.trace, inner.trace, value, items[j].value))
    && (SparesAll(body, key) && key != value ==> Stands(bound.trace, inner.trace, key, Str(items[j].key)))
    && NamedAll(all, o, body, bound)
    && (inner.status.Running? && j + 1 < |items| ==>
          Named(all, o, range, body, items, j + 1, Finish(inner, EndEvents).Emit([Append])))
  }

  ghost predicate NamedStmt(all: Trace, o: Oracle, s: Stmt, st: State)
    requires WfStmt(s)
    decreases s, 0
  {
    var t := st.trace + [Append];
    match s
    case Line(_) => true
    case Guard(h, body) =>
      var r := Chain(o, h, 0, true, t, []);
      r.Passed? ==> NamedAll(all, o, body, st.(trace := r.trace))
    case GuardElse(h, body, els) =>
      var r := Chain(o, h, 0, true, t, []);
      && (r.Passed? ==> NamedAll(all, o, body, st.(trace := r.trace)))
      && (r.Skipped? ==> NamedAll(all, o, els, st.(trace := r.trace)))
    case Loop(range, body) =>
      var items := o.items(t, range, []);
      items.Some? && items.value != [] ==>
        Named(all, o, range, body, items.value, 0, st.(trace := t + [Eval(range, [], o.Evaluate(t, range, []))]))
  }

  /** In every iteration of every range that a program runs from st on, within the trace all. */
  ghost predicate NamedAll(all: Trace, o: Oracle, p: Prog, st: State)
    requires Wf(p)
    decreases p, 0
  {
    p.Cons? ==>
      && NamedStmt(all, o, p.head, st)
      && var st1 := MeaningStmt(o, p.head, st); (st1.status.Running? ==> NamedAll(all, o, p.tail, st1))
  }

  lemma KeepsTop(o: Oracle, body: Prog, bound: State, k: string, v: Value)
    requires Wf(body) && bound.status.Running? && SparesAll(body, k)
    requires Keeps(Replay(bound.trace), |Replay(bound.trace)|, k, v)
    ensures Stands(bound.trace, Meaning(o, body, bound).trace, k, v)
  {
    hide Replay, Meaning;
    MeaningRuns(o, body, bound, |Replay(bound.trace)|, k, v);
  }

  lemma ScopeOpen(t: Trace)
    ensures Replay(t + [Append]) != []
  {
    assert (t + [Append])[..|t|] == t;
  }

  lemma BoundTop(t: Trace, range: Expr, item: Item)
    requires |range.params| >= 3 && Replay(t) != []
    ensures var envs := Replay(t + Binds(range, item));
            && Keeps(envs, |envs|, range.params[2], item.value)
            && (range.params[1] != range.params[2] ==> Keeps(envs, |envs|, range.params[1], Str(item.key)))
  {
    var b := Binds(range, item);
    assert (t + b)[..|t + b| - 1] == t + [b[0]] && (t + [b[0]])[..|t|] == t;
    BindStands(Replay(t), range.params[1], Str(item.key));
    BindStands(Replay(t + [b[0]]), range.params[2], item.value);
    assert Replay(t + [b[0]]) == BindTop(Replay(t), range.params[1], Str(item.key));
    assert Replay(t + b) == BindTop(Replay(t + [b[0]]), range.params[2], item.value);
    hide Replay, BindTop;
  }

  /** Binding a name gives it the value at the top and leaves other names alone there. */
  lemma BindStands(envs: Envs, k: string, v: Value)
    requires envs != []
    ensures var envs' := BindTop(envs, k, v);
            && |envs'| == |envs| && Keeps(envs', |envs'|, k, v)
            && forall x, w :: x != k && Keeps(envs, |envs|, x, w) ==> Keeps(envs', |envs'|, x, w)
  {
  }

  lemma {:induction false} IterationsNamed(all: Trace, o: Oracle, range: Expr, body: Prog, items: seq<Item>, j: nat, st: State)
    requires Wf(body) && |range.params| >= 3 && j < |items| && st.status.Running? && Replay(st.trace) != []
    requires Iterate(o, range, body, items, j, st).trace <= all
    ensures Named(all, o, range, body, items, j, st)
    decreases body, 1 + |items| - j
  {
    hide Replay, Meaning, Keeps, Stands, NamedAll;
    var bound := st.Emit(Binds(range, items[j]));
    BoundTop(st.trace, range, items[j]);
    if SparesAll(body, range.params[2]) {
      KeepsTop(o, body, bound, range.params[2], items[j].value);
    }
    if SparesAll(body, range.params[1]) && range.params[1] != range.params[2] {
      KeepsTop(o, body, bound, range.params[1], Str(items[j].key));
    }
    var inner := Meaning(o, body, bound);
    var after := Finish(inner, EndEvents);
    MeaningFollows(o, body, bound);
    if after.status.Running? && j + 1 < |items| {
      var next := after.Emit([Append]);
      IterateFollows(o, range, body, items, j + 1, next);
      ScopeOpen(after.trace);
      IterationsNamed(all, o, range, body, items, j + 1, next);
    }
    MeaningNamed(all, o, body, bound);
  }

  lemma {:induction false} StmtNamed(all: Trace, o: Oracle, s: Stmt, st: State)
    requires WfStmt(s) && st.status.Running? && MeaningStmt(o, s, st).trace <= all
    ensures NamedStmt(all, o, s, st)
    decreases s, 1
  {
    hide Replay, Meaning, Iterate, Chain, NamedAll, Named;
    var t := st.trace + [Append];
    match s
    case Line(_) =>
    case Guard(h, body) =>
      var r := Chain(o, h, 0, true, t, []);
      if r.Passed? { PartNamed(all, o, body, st.(trace := r.trace), EndEvents); }
    case GuardElse(h, body, els) =>
      var r := Chain(o, h, 0, true, t, []);
      if r.Passed? { PartNamed(all, o, body, st.(trace := r.trace), [ElseEvent] + EndEvents); }
      if r.Skipped? { PartNamed(all, o, els, st.(trace := r.trace), EndEvents); }
    case Loop(range, body) =>
      var items := o.items(t, range, []);
      ScopeOpen(st.trace);
      RangeKeepsScope(t, Eval(range, [], o.Evaluate(t, range, [])));
      if items.Some? && items.value != [] {
        IterationsNamed(all, o, range, body, items.value, 0, st.(trace := t + [Eval(range, [], o.Evaluate(t, range, []))]));
      }
  }

  lemma {:induction false} PartNamed(all: Trace, o: Oracle, p: Prog, st: State, events: Trace)
    requires Wf(p) && st.status.Running? && Finish(Meaning(o, p, st), events).trace <= all
    ensures NamedAll(all, o, p, st)
    decreases p, 1
  {
    hide Meaning, NamedAll;
    assert Meaning(o, p, st).trace <= Finish(Meaning(o, p, st), events).trace;
    MeaningNamed(all, o, p, st);
  }

  lemma {:induction false} MeaningNamed(all: Trace, o: Oracle, p: Prog, st: State)
    requires Wf(p) && st.status.Running? && Meaning(o, p, st).trace <= all
    ensures NamedAll(all, o, p, st)
    decreases p, 0
  {
    hide MeaningStmt, NamedStmt;
    if p.Cons? {
      var st1 := MeaningStmt(o, p.head, st);
      if st1.status.Running? {
        MeaningFollows(o, p.tail, st1);
        MeaningNamed(all, o, p.tail, st1);
      }
      StmtNamed(all, o, p.head, st);
    }
  }

  /** In every run of a Sound program, in every iteration of every range, at every point of its body, the
      range's variables stand for the element of that iteration, unless the body rebinds them. */
  lemma ElementsAreNamed(o: Oracle, p: Prog)
    requires Wf(p) && S.Sound(p, S.Outside)
    ensures exists n: nat ::
              var r := Run(o, Flat(p), S.Table(p), Start, n);
              !Live(Flat(p), r) && NamedAll(r.trace, o, p, State([], 0, Running))
  {
    hide Run, Meaning, S.Table, S.Sound, NamedAll, LinkAll;
    S.CompilerCorrect(o, p);
    var st := State([], 0, Running);
    MeaningNamed(Meaning(o, p, st).trace, o, p, st);
  }

  lemma RangeKeepsScope(t: Trace, ev: Event)
    requires Replay(t) != [] && ev.Eval?
    ensures Replay(t + [ev]) != []
  {
    assert (t + [ev])[..|t|] == t;
  }

  // ----- The scopes on the heap -----

  /** The variables that a stack holds. */
  ghost function Held(items: seq<V.Frame>): set<V.Kv> {
    set f, x | f in items && x in f :: x
  }

  lemma ResolvedIsHeld(items: seq<V.Frame>, d: nat, k: string)
    requires d <= |items| && V.Resolve(items[..d], k) != null
    ensures V.Resolve(items[..d], k) in Held(items)
  {
    hide V.Resolve;
    var i := V.ResolveHeld(items[..d], k);
    assert items[i] in items;
  }

  /** What the variables of a stack hold. */
  type Store = map<V.Kv, Value>

  ghost function Values(items: seq<V.Frame>): Store
    reads Held(items)
  {
    map x | x in Held(items) :: x.value
  }

  /** With the scopes up to the one of depth d, k resolves as the environment says. */
  ghost predicate Agrees(items: seq<V.Frame>, store: Store, envs: Envs, d: nat, k: string)
    requires d < |items| == |envs|
  {
    var x := V.Resolve(items[..d + 1], k);
    && (x == null <==> k !in envs[d])
    && (x != null ==> x in store && store[x] == envs[d][k])
  }

  /** At every depth every name resolves as the environment says. */
  ghost predicate Mirrors(items: seq<V.Frame>, store: Store, envs: Envs) {
    |items| == |envs| && forall d: nat, k :: d < |envs| ==> Agrees(items, store, envs, d, k)
  }

  lemma MirrorsOpen(items: seq<V.Frame>, store: Store, envs: Envs)
    requires Mirrors(items, store, envs)
    ensures Mirrors(items + [[]], store, After(envs, Append))
  {
    hide V.Resolve;
    var n, items' := |items|, items + [[]];
    forall d: nat, k | d <= n
      ensures Agrees(items', store, After(envs, Append), d, k)
    {
      if d < n {
        assert Agrees(items, store, envs, d, k);
        assert items'[..d + 1] == items[..d + 1];
      } else {
        assert items'[..n + 1] == items' && items[..n] == items;
        V.OpenScopeHidesNothing(items, k);
        NothingResolves(k);
        assert n > 0 ==> Agrees(items, store, envs, n - 1, k);
      }
    }
  }

  lemma NothingResolves(k: string)
    ensures V.Resolve([], k) == null
  {
  }

  lemma MirrorsClose(items: seq<V.Frame>, store: Store, envs: Envs)
    requires Mirrors(items, store, envs) && items != []
    ensures Mirrors(items[..|items| - 1], store, envs[..|envs| - 1])
  {
    hide V.Resolve;
    var n := |items| - 1;
    forall d: nat, k | d < n
      ensures Agrees(items[..n], store, envs[..n], d, k)
    {
      assert Agrees(items, store, envs, d, k);
      assert items[..n][..d + 1] == items[..d + 1];
    }
  }

  /** A variable added to the innermost scope. */
  lemma MirrorsPush(items: seq<V.Frame>, items': seq<V.Frame>, store: Store, envs: Envs, kv: V.Kv, v: Value)
    requires Mirrors(items, store, envs) && items != [] && items' == items[|items| - 1 := items[|items| - 1] + [kv]]
    requires kv !in store
    ensures Mirrors(items', store[kv := v], BindTop(envs, kv.key, v))
  {
    hide V.Resolve;
    var n, store', envs' := |items| - 1, store[kv := v], BindTop(envs, kv.key, v);
    V.AppendedResolves(items, items', kv);
    forall d: nat, k | d <= n
      ensures Agrees(items', store', envs', d, k)
    {
      assert Agrees(items, store, envs, d, k);
      assert items'[..n + 1] == items' && items[..n + 1] == items;
    }
  }

  /** What Set promises, read at every depth and for every name: `store'` has the new value for kv and
      is as before for variables of other names. */
  lemma MirrorsSet(items: seq<V.Frame>, items': seq<V.Frame>, store: Store, store': Store, envs: Envs, kv: V.Kv, v: Value)
    requires Mirrors(items, store, envs) && |items'| == |items| && items != []
    requires V.Resolve(items', kv.key) == kv
    requires forall d :: 0 <= d < |items| ==>
               V.Resolve(items'[..d], kv.key) == if V.Resolve(items[..d], kv.key) == null then null else kv
    requires forall d, k :: 0 <= d <= |items| && k != kv.key ==> V.Resolve(items'[..d], k) == V.Resolve(items[..d], k)
    requires kv in store' && store'[kv] == v
    requires forall x :: x in store && x.key != kv.key ==> x in store' && store'[x] == store[x]
    ensures Mirrors(items', store', SetAll(envs, kv.key, v))
  {
    var envs' := SetAll(envs, kv.key, v);
    var n := |items| - 1;
    forall d: nat, k | d <= n
      ensures Agrees(items', store', envs', d, k)
    {
      assert Agrees(items, store, envs, d, k);
      assert items'[..n + 1] == items' && items[..n + 1] == items;
      NamedRight(items[..d + 1], k);
      hide V.Resolve;
      assert k != kv.key ==> V.Resolve(items'[..d + 1], k) == V.Resolve(items[..d + 1], k);
    }
  }

  lemma NamedRight(items: seq<V.Frame>, k: string)
    ensures V.Resolve(items, k) != null ==> V.Resolve(items, k).key == k
  {
  }

  /** A store that says the same of the variables held. */
  lemma MirrorsStore(items: seq<V.Frame>, store: Store, store': Store, envs: Envs)
    requires Mirrors(items, store, envs)
    requires forall x :: x in Held(items) && x in store ==> x in store' && store'[x] == store[x]
    ensures Mirrors(items, store', envs)
  {
    hide V.Resolve;
    forall d: nat, k | d < |envs|
      ensures Agrees(items, store', envs, d, k)
    {
      assert Agrees(items, store, envs, d, k);
      if V.Resolve(items[..d + 1], k) != null { ResolvedIsHeld(items, d + 1, k); }
    }
  }

  // ----- Performing a trace -----

  method Open(vt: V.VarTemp, ghost envs: Envs)
    requires Mirrors(vt.items, Values(vt.items), envs)
    modifies vt`items
    ensures Mirrors(vt.items, Values(vt.items), After(envs, Append)) && Held(vt.items) <= old(Held(vt.items))
  {
    hide V.Resolve, Mirrors;
    ghost var items, store := vt.items, Values(vt.items);
    vt.Append();
    MirrorsOpen(items, store, envs);
    assert forall f :: f in vt.items <==> f in items || f == [];
    MirrorsStore(vt.items, store, Values(vt.items), After(envs, Append));
  }

  lemma MirrorsSize(items: seq<V.Frame>, store: Store, envs: Envs)
    requires Mirrors(items, store, envs)
    ensures |items| == |envs|
  {
  }

  method Close(vt: V.VarTemp, ghost envs: Envs)
    requires Mirrors(vt.items, Values(vt.items), envs)
    modifies vt`items
    ensures Mirrors(vt.items, Values(vt.items), After(envs, Pop)) && Held(vt.items) <= old(Held(vt.items))
  {
    hide V.Resolve, Mirrors;
    ghost var items, store := vt.items, Values(vt.items);
    MirrorsSize(items, store, envs);
    var ok := vt.Pop();
    if ok {
      MirrorsClose(items, store, envs);
      assert forall f :: f in vt.items ==> f in items;
      MirrorsStore(vt.items, store, Values(vt.items), After(envs, Pop));
    }
  }

  method Empty(vt: V.VarTemp, ghost envs: Envs)
    requires Mirrors(vt.items, Values(vt.items), envs)
    modifies vt`items
    ensures Mirrors(vt.items, Values(vt.items), After(envs, Clear)) && Held(vt.items) <= old(Held(vt.items))
  {
    hide V.Resolve, Mirrors;
    ghost var items, store := vt.items, Values(vt.items);
    MirrorsSize(items, store, envs);
    var ok := vt.ClearTop();
    if ok {
      MirrorsClose(items, store, envs);
      MirrorsOpen(items[..|items| - 1], store, envs[..|envs| - 1]);
      assert forall f :: f in vt.items ==> f in items || f == [];
      assert After(envs, Clear) == After(envs[..|envs| - 1], Append);
      MirrorsStore(vt.items, store, Values(vt.items), After(envs, Clear));
    }
  }

  method Declare(vt: V.VarTemp, k: string, v: Value, ghost envs: Envs) returns (ok: bool)
    requires Mirrors(vt.items, Values(vt.items), envs)
    modifies vt`items
    ensures Mirrors(vt.items, Values(vt.items), BindTop(envs, k, v)) && fresh(Held(vt.items) - old(Held(vt.items)))
    ensures ok <==> envs != []
  {
    hide V.Resolve, Mirrors;
    ghost var items, store := vt.items, Values(vt.items);
    MirrorsSize(items, store, envs);
    ok := |vt.items| > 0;
    if ok {
      var kv := new V.Kv(k, v);
      vt.Push(kv);
      ghost var n := |items| - 1;
      assert vt.items == items[n := items[n] + [kv]];
      MirrorsPush(items, vt.items, store, envs, kv, v);
      HeldPush(items, vt.items, kv);
      MirrorsStore(vt.items, store[kv := v], Values(vt.items), BindTop(envs, k, v));
    }
  }

  lemma HeldPush(items: seq<V.Frame>, items': seq<V.Frame>, kv: V.Kv)
    requires items != [] && items' == items[|items| - 1 := items[|items| - 1] + [kv]]
    ensures Held(items') == Held(items) + {kv}
  {
    var n := |items| - 1;
    forall x | x in Held(items')
      ensures x in Held(items) + {kv}
    {
      var f :| f in items' && x in f;
      assert f in items || f == items[n] + [kv];
      assert items[n] in items;
    }
    forall x | x in Held(items) + {kv}
      ensures x in Held(items')
    {
      assert kv in items'[n] && items'[n] in items';
      if x != kv {
        var f :| f in items && x in f;
        var i :| 0 <= i < |items| && items[i] == f;
        assert x in items'[i] && items'[i] in items';
      }
    }
  }

  method Assign(vt: V.VarTemp, k: string, v: Value, ghost envs: Envs) returns (ok: bool)
    requires Mirrors(vt.items, Values(vt.items), envs)
    modifies vt`items, Held(vt.items)
    ensures Mirrors(vt.items, Values(vt.items), SetAll(envs, k, v)) && fresh(Held(vt.items) - old(Held(vt.items)))
    ensures ok <==> envs != []
  {
    hide V.Resolve, Mirrors;
    ghost var items, store := vt.items, Values(vt.items);
    MirrorsSize(items, store, envs);
    ok := |vt.items| > 0;
    if ok {
      var kv := new V.Kv(k, v);
      assert vt.Named(k) <= Held(items);
      vt.Set(kv);
      ghost var store' := map x | x in Held(items) + {kv} :: x.value;
      HeldSet(items, vt.items, kv);
      MirrorsSet(items, vt.items, store, store', envs, kv, v);
      MirrorsStore(vt.items, store', Values(vt.items), SetAll(envs, k, v));
    } else {
      assert SetAll(envs, k, v) == envs;
    }
  }

  lemma HeldSet(items: seq<V.Frame>, items': seq<V.Frame>, kv: V.Kv)
    requires |items'| == |items| && forall i, x :: 0 <= i < |items'| && x in items'[i] ==> x == kv || x in items[i]
    ensures Held(items') <= Held(items) + {kv}
  {
    forall x | x in Held(items')
      ensures x in Held(items) + {kv}
    {
      var f :| f in items' && x in f;
      var i :| 0 <= i < |items'| && items'[i] == f;
      assert items[i] in items;
    }
  }

  /** The event binds, sets or defines a variable, for which there must be a scope. */
  predicate NeedsScope(ev: Event) {
    ev.Bind? || (ev.Eval? && !ev.outcome.err && (SetsName(ev.expr).Some? || DefinesName(ev.expr).Some?))
  }

  /** Performs an event on the scopes. It cannot when the event needs a scope and there is none. */
  method Perform(vt: V.VarTemp, ev: Event, ghost envs: Envs) returns (ok: bool)
    requires Mirrors(vt.items, Values(vt.items), envs)
    modifies vt`items, Held(vt.items)
    ensures Mirrors(vt.items, Values(vt.items), After(envs, ev)) && fresh(Held(vt.items) - old(Held(vt.items)))
    ensures ok <==> (NeedsScope(ev) ==> envs != [])
  {
    hide Mirrors, Held, Values, SetAll, BindTop;
    ok := true;
    match ev
    case Append => Open(vt, envs);
    case Pop => Close(vt, envs);
    case Clear => Empty(vt, envs);
    case Bind(k, v) => ok := Declare(vt, k, v, envs);
    case Eval(e, _, r) =>
      if !r.err && SetsName(e).Some? {
        ok := Assign(vt, SetsName(e).value, ValueOf(r), envs);
      } else if !r.err && DefinesName(e).Some? {
        ok := Declare(vt, DefinesName(e).value, ValueOf(r), envs);
      }
  }

  /** Whenever the trace needs a scope there is one. */
  ghost predicate Scoped(t: Trace) {
    forall i :: 0 <= i < |t| && NeedsScope(t[i]) ==> Replay(t[..i]) != []
  }

  /** The scopes of a run that has done what the trace says: every name resolves, at every depth, as
      replaying the trace tells, and no event is performed without the scope it needs exactly when the
      trace is scoped. */
  method Performed(t: Trace) returns (vt: V.VarTemp, ok: bool)
    ensures fresh(vt) && Mirrors(vt.items, Values(vt.items), Replay(t))
    ensures ok <==> Scoped(t)
  {
    hide Mirrors, After;
    vt := new V.VarTemp();
    vt.Append();
    NothingMirrors(vt.items, Values(vt.items));
    ok := true;
    var i := 0;
    while i < |t|
      invariant 0 <= i <= |t| && fresh(Held(vt.items))
      invariant Mirrors(vt.items, Values(vt.items), Replay(t[..i]))
      invariant ok <==> forall j :: 0 <= j < i && NeedsScope(t[j]) ==> Replay(t[..j]) != []
    {
      assert t[..i + 1][..i] == t[..i];
      var done := Perform(vt, t[i], Replay(t[..i]));
      ok := ok && done;
      i := i + 1;
    }
    assert t[..|t|] == t;
  }

  lemma NothingMirrors(items: seq<V.Frame>, store: Store)
    requires items == [[]]
    ensures Mirrors(items, store, [map[]]) && Held(items) == {}
  {
    forall d: nat, k | d < 1
      ensures Agrees(items, store, [map[]], d, k)
    {
      assert items[..1] == [] + [[]];
      V.OpenScopeHidesNothing([], k);
    }
  }

  /** Looking a name up in the scopes of a run gives the value that its trace tells. */
  method GetAfter(t: Trace, k: string) returns (r: Option<Value>)
    ensures r == LookUp(t, k)
  {
    hide V.Resolve, Replay;
    var vt, ok := Performed(t);
    ghost var envs := Replay(t);
    assert vt.items[..|vt.items|] == vt.items;
    var kv := vt.GetValue(k);
    NothingResolves(k);
    assert envs != [] ==> Agrees(vt.items, Values(vt.items), envs, |envs| - 1, k);
    return if kv == null then None else Some(kv.value);
  }
}
