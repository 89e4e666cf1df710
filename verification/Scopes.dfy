/**
  The scopes that a program opens and closes.

  A block that is skipped and has no "else", and a range that fails, go on behind their "end" row, so their
  scope stays open. So does the scope that an "if" without the form of a condition opens by itself. Every
  other scope is closed.
 */
module Scopes {
  import opened Common
  import opened Template
  import opened Runtime
  import opened Structured
  import opened Reach

  function Delta(e: Event): int {
    if e.Append? then 1 else if e.Pop? then -1 else 0
  }

  /** Scopes opened minus scopes closed. */
  function Open(t: Trace): int {
    if t == [] then 0 else Open(t[..|t| - 1]) + Delta(t[|t| - 1])
  }

  /** An "if" that opens a scope by itself. */
  predicate OpensOwn(e: Expr) {
    e.func.If? && Formless(e)
  }

  /** How many scopes "if"s have opened by themselves. */
  function Own(t: Trace): nat {
    if t == [] then 0
    else
      var e := t[|t| - 1];
      Own(t[..|t| - 1]) + if e.Eval? && OpensOwn(e.expr) && !e.outcome.err then 1 else 0
  }

  lemma {:induction false} CountsConcat(a: Trace, b: Trace)
    ensures Open(a + b) == Open(a) + Open(b) && Own(a + b) == Own(a) + Own(b)
    decreases |b|
  {
    if b == [] {
      assert a + b == a;
    } else {
      assert (a + b)[..|a + b| - 1] == a + b[..|b| - 1];
      CountsConcat(a, b[..|b| - 1]);
    }
  }

  lemma CountsTwo(e: Event, f: Event)
    ensures Open([e]) == Delta(e) && Open([e, f]) == Delta(e) + Delta(f) && Own([e, f]) == Own([e]) + Own([f])
  {
    assert [e, f] == [e] + [f];
    CountsConcat([e], [f]);
  }

  lemma OwnGrows(a: Trace, b: Trace)
    requires a <= b
    ensures Own(a) <= Own(b)
  {
    assert b == a + b[|a|..];
    CountsConcat(a, b[|a|..]);
  }

  /** The scopes that skipped blocks or nobody at all should have closed. */
  function Net(t: Trace): int {
    Open(t) - Own(t)
  }

  lemma EndNet(t: Trace)
    ensures Net(t + EndEvents) == Net(t) - 1 && Net(t + ([ElseEvent] + EndEvents)) == Net(t) - 1
    ensures Net(t + [Append]) == Net(t) + 1
  {
    CountsTwo(EndEvents[0], Pop);
    CountsTwo(ElseEvent, Append);
    CountsConcat([ElseEvent], EndEvents);
    CountsConcat(t, EndEvents);
    CountsConcat(t, [ElseEvent] + EndEvents);
    CountsConcat(t, [Append]);
  }

  lemma EffectsNet(t: Trace, e: Expr, input: seq<Value>, r: Outcome)
    ensures Net(t + Effects(e, input, r)) == Net(t)
    ensures Own(t + Effects(e, input, r)) == Own(t) + if OpensOwn(e) && !r.err then 1 else 0
  {
    var ev, more := Eval(e, input, r), if !Formless(e) || r.err then [] else if e.func.If? then [Append] else [Clear];
    assert Effects(e, input, r) == [ev] + more;
    hide Effects;
    CountsConcat(t, [ev] + more);
    CountsConcat([ev], more);
    CountsTwo(ev, Append);
  }

  lemma {:induction false} ChainNet(o: Oracle, row: Row, k: nat, guarded: bool, t: Trace, input: seq<Value>)
    requires k <= |row|
    ensures Net(Chain(o, row, k, guarded, t, input).trace) == Net(t)
    decreases |row| - k
  {
    hide Net;
    if k < |row| {
      var r := o.Evaluate(t, row[k], input);
      var t' := t + Effects(row[k], input, r);
      EffectsNet(t, row[k], input, r);
      ChainNet(o, row, k + 1, guarded, t', input);
      ChainNet(o, row, k + 1, guarded, t', r.out);
    }
  }

  /** As many scopes are open after a part that has run to its end as before it and as it has skipped
      blocks. */
  ghost predicate Balanced(st: State, st': State) {
    st'.status.Running? ==> Net(st'.trace) - Net(st.trace) == st'.leaks - st.leaks
  }

  lemma {:induction false} BlockNet(o: Oracle, body: Prog, st: State, t: Trace, events: Trace)
    requires Wf(body) && st.status.Running? && Net(t) == Net(st.trace) + 1
    requires events == EndEvents || events == [ElseEvent] + EndEvents
    ensures Balanced(st, Finish(Meaning(o, body, st.(trace := t)), events))
    decreases body, 1
  {
    hide Net, Meaning;
    var inner := Meaning(o, body, st.(trace := t));
    MeaningNet(o, body, st.(trace := t));
    EndNet(inner.trace);
  }

  lemma {:induction false} StmtNet(o: Oracle, s: Stmt, st: State)
    requires WfStmt(s) && st.status.Running?
    ensures Balanced(st, MeaningStmt(o, s, st))
    decreases s, 0
  {
    hide Net, Meaning, Iterate, Chain;
    var t := st.trace + [Append];
    EndNet(st.trace);
    match s
    case Line(row) =>
      ChainNet(o, row, 0, false, st.trace, []);
      ChainFollows(o, row, 0, false, st.trace, []);
    case Guard(h, body) =>
      ChainNet(o, h, 0, true, t, []);
      ChainFollows(o, h, 0, true, t, []);
      BlockNet(o, body, st, Chain(o, h, 0, true, t, []).trace, EndEvents);
    case GuardElse(h, body, els) =>
      ChainNet(o, h, 0, true, t, []);
      ChainFollows(o, h, 0, true, t, []);
      BlockNet(o, body, st, Chain(o, h, 0, true, t, []).trace, [ElseEvent] + EndEvents);
      BlockNet(o, els, st, Chain(o, h, 0, true, t, []).trace, EndEvents);
    case Loop(range, body) =>
      var r := o.Evaluate(t, range, []);
      EffectsNet(t, range, [], r);
      assert Effects(range, [], r) == [Eval(range, [], r)];
      EndNet(t + [Eval(range, [], r)]);
      if o.items(t, range, []).Some? && o.items(t, range, []).value != [] {
        IterateNet(o, range, body, o.items(t, range, []).value, 0, st.(trace := t + [Eval(range, [], r)]));
      }
  }

  lemma BindsNet(t: Trace, range: Expr, item: Item)
    requires |range.params| >= 3
    ensures Net(t + Binds(range, item)) == Net(t)
  {
    CountsTwo(Binds(range, item)[0], Binds(range, item)[1]);
    CountsConcat(t, Binds(range, item));
  }

  /** The iterations of a range close the one scope that is open when the first begins. */
  lemma {:induction false} IterateNet(o: Oracle, range: Expr, body: Prog, items: seq<Item>, k: nat, st: State)
    requires Wf(body) && |range.params| >= 3 && k < |items| && st.status.Running?
    ensures var st' := Iterate(o, range, body, items, k, st);
            st'.status.Running? ==> Net(st'.trace) - (Net(st.trace) - 1) == st'.leaks - st.leaks
    decreases body, 1 + |items| - k
  {
    hide Net, Meaning;
    var bound := st.Emit(Binds(range, items[k]));
    BindsNet(st.trace, range, items[k]);
    MeaningNet(o, body, bound);
    var inner := Meaning(o, body, bound);
    var after := Finish(inner, EndEvents);
    EndNet(inner.trace);
    EndNet(after.trace);
    if after.status.Running? && k + 1 < |items| {
      IterateNet(o, range, body, items, k + 1, after.Emit([Append]));
    }
  }

  lemma {:induction false} MeaningNet(o: Oracle, p: Prog, st: State)
    requires Wf(p) && st.status.Running?
    ensures Balanced(st, Meaning(o, p, st))
    decreases p, 0
  {
    hide Net, MeaningStmt;
    if p.Cons? {
      StmtNet(o, p.head, st);
      var st1 := MeaningStmt(o, p.head, st);
      if st1.status.Running? {
        MeaningNet(o, p.tail, st1);
      }
    }
  }

  /** Every scope a program opens is closed again, except one for each block without an "else" that was
      skipped and each range that failed, and one for each "if" that opened a scope by itself. */
  lemma ScopeBalance(o: Oracle, p: Prog, st: State)
    requires Wf(p) && st.status.Running?
    ensures var st' := Meaning(o, p, st);
            && st.leaks <= st'.leaks && Own(st.trace) <= Own(st'.trace)
            && (st'.status.Running? ==>
                  Open(st'.trace) - Open(st.trace) == (st'.leaks - st.leaks) + (Own(st'.trace) - Own(st.trace)))
  {
    hide Meaning;
    MeaningNet(o, p, st);
    MeaningFollows(o, p, st);
    OwnGrows(st.trace, Meaning(o, p, st).trace);
  }

  // ----- Programs that can leave a scope open -----

  /** One of the expressions from k on opens a scope by itself. */
  predicate HasOwn(row: Row, k: nat)
    requires k <= |row|
    decreases |row| - k
  {
    k < |row| && (OpensOwn(row[k]) || HasOwn(row, k + 1))
  }

  /** The row can be skipped from k on after an expression that opens a scope by itself. */
  predicate CanSkipOwn(row: Row, k: nat)
    requires k <= |row|
    decreases |row| - k
  {
    k < |row| && !Stops(row[k].func) && ((OpensOwn(row[k]) && CanSkip(row, k + 1)) || CanSkipOwn(row, k + 1))
  }

  predicate LeakyStmt(s: Stmt)
    decreases s, 0
  {
    match s
    case Line(_) => false
    case Guard(h, body) => CanSkip(h, 0) || LeakyPart(h, body)
    case GuardElse(h, body, els) =>
      || LeakyPart(h, body)
      || (CanSkip(h, 0) && Leaky(els)) || (CanSkipOwn(h, 0) && CanFinish(els))
    case Loop(_, _) => true
  }

  /** A block whose header can be passed. */
  predicate LeakyPart(h: Row, body: Prog)
    decreases body, 1
  {
    CanPass(h, 0) && (Leaky(body) || (HasOwn(h, 0) && CanFinish(body)))
  }

  /** Some run goes to the end of the program and leaves a scope open: it skips a block without an
      "else", fails a range, or meets an "if" that opens a scope by itself. */
  predicate Leaky(p: Prog)
    decreases p, 0
  {
    p.Cons? && ((LeakyStmt(p.head) && CanFinish(p.tail)) || (CanFinishStmt(p.head) && Leaky(p.tail)))
  }

  /** Scopes that stay open. */
  function Left(st: State): nat {
    st.leaks + Own(st.trace)
  }

  lemma {:induction false} ChainOwn(o: Oracle, row: Row, k: nat, guarded: bool, t: Trace, input: seq<Value>)
    requires k <= |row|
    ensures var r := Chain(o, row, k, guarded, t, input);
            && (r.Passed? ==> if HasOwn(row, k) then Own(r.trace) > Own(t) else Own(r.trace) == Own(t))
            && (r.Skipped? && !CanSkipOwn(row, k) ==> Own(r.trace) == Own(t))
            && Own(t) <= Own(r.trace)
    decreases |row| - k
  {
    hide Own, Effects;
    if k < |row| {
      var r := o.Evaluate(t, row[k], input);
      var t' := t + Effects(row[k], input, r);
      EffectsNet(t, row[k], input, r);
      var next := if row[k].func.Send? then input else r.out;
      ChainOwn(o, row, k + 1, guarded, t', next);
      ChainCan(o, row, k + 1, guarded, t', next);
      OwnStep(o, row, k, guarded, t, input);
    }
  }

  /** A row stops or skips at its expression k or goes on with the next one. */
  lemma OwnStep(o: Oracle, row: Row, k: nat, guarded: bool, t: Trace, input: seq<Value>)
    requires k < |row|
    ensures var r := o.Evaluate(t, row[k], input);
            var t' := t + Effects(row[k], input, r);
            var next := if row[k].func.Send? then input else r.out;
            var all := Chain(o, row, k, guarded, t, input);
            || (all == Chain(o, row, k + 1, guarded, t', next) && !Stops(row[k].func) && (OpensOwn(row[k]) ==> !r.err || !guarded))
            || (all == Skipped(t') && (OpensOwn(row[k]) ==> r.err))
            || (all.Stopped? && all.trace == t')
  {
    hide Effects;
  }

  lemma {:induction false} PlainOwn(row: Row, k: nat)
    requires PlainRow(row) && k <= |row|
    ensures !HasOwn(row, k)
    decreases |row| - k
  {
    if k < |row| { PlainOwn(row, k + 1); }
  }

  /** Events that are no evaluation of an "if". */
  lemma {:induction false} OwnApart(t: Trace, events: Trace)
    requires forall e :: e in events ==> e.Eval? ==> !e.expr.func.If?
    ensures Own(t + events) == Own(t)
    decreases |events|
  {
    if events == [] {
      assert t + events == t;
    } else {
      assert (t + events)[..|t + events| - 1] == t + events[..|events| - 1];
      OwnApart(t, events[..|events| - 1]);
    }
  }

  // ----- An oracle that leaves one open -----

  lemma LeftGrows(a: State, b: State)
    requires Follows(a, b)
    ensures Left(a) <= Left(b)
  {
    OwnGrows(a.trace, b.trace);
  }

  lemma {:induction false} OwnFails(row: Row, k: nat, t: Trace, input: seq<Value>) returns (n: nat)
    requires Steerable(row) && k <= |row| && CanSkipOwn(row, k)
    ensures n >= |t| && var r := Chain(FailAt(n), row, k, true, t, input); r.Skipped? && Own(r.trace) > Own(t)
    decreases |row| - k
  {
    hide Own, Chain;
    var r := PassAll.Evaluate(t, row[k], input);
    var t', next := t + Effects(row[k], input, r), if row[k].func.Send? then input else r.out;
    EffectsNet(t, row[k], input, r);
    assert |t'| > |t|;
    if OpensOwn(row[k]) && CanSkip(row, k + 1) {
      n := ChainFails(row, k + 1, t', next);
    } else {
      n := OwnFails(row, k + 1, t', next);
    }
    ChainOwn(FailAt(n), row, k + 1, true, t', next);
    PassesOne(n, row, k, t, input);
  }

  /** Before its trace is n long, FailAt(n) passes what can be passed. */
  lemma PassesOne(n: nat, row: Row, k: nat, t: Trace, input: seq<Value>)
    requires Steerable(row) && k < |row| && !Stops(row[k].func) && n > |t|
    ensures var r := PassAll.Evaluate(t, row[k], input);
            var t', next := t + Effects(row[k], input, r), if row[k].func.Send? then input else r.out;
            Chain(FailAt(n), row, k, true, t, input) == Chain(FailAt(n), row, k + 1, true, t', next)
  {
    hide Effects;
    var r := PassAll.Evaluate(t, row[k], input);
    assert FailAt(n).Evaluate(t, row[k], input) == r;
  }

  /** A block that leaves a scope open in the part that its header, run by o, leads to, or has left one
      open already. */
  lemma {:induction false} LeakPart(o: Oracle, h: Row, st: State, p: Prog, events: Trace) returns (o2: Oracle)
    requires Wf(p) && st.status.Running? && CanFinish(p) && Barren(o)
    requires events == EndEvents || events == [ElseEvent] + EndEvents
    requires var r := Chain(o, h, 0, true, st.trace + [Append], []);
             !r.Stopped? && (Leaky(p) || Own(r.trace) > Own(st.trace))
    ensures var r := Chain(o, h, 0, true, st.trace + [Append], []);
            var st' := Finish(Meaning(o2, p, st.(trace := r.trace)), events);
            && Chain(o2, h, 0, true, st.trace + [Append], []) == r && Barren(o2)
            && st'.status.Running? && Left(st') > Left(st)
    decreases p, 1
  {
    hide Chain, Meaning, Own, Alike;
    var t := st.trace + [Append];
    var r := Chain(o, h, 0, true, t, []);
    var st1 := st.(trace := r.trace);
    ChainOwn(o, h, 0, true, t, []);
    OwnApart(st.trace, [Append]);
    if Leaky(p) {
      var o' := LeakProg(p, st1);
      o2 := HeadThen(o, h, t, o');
      MeaningLocal(o', o2, p, st1);
    } else {
      o2 := PartFinishes(o, h, st, p);
      MeaningFollows(o2, p, st1);
      LeftGrows(st1, Meaning(o2, p, st1));
    }
    OwnApart(Meaning(o2, p, st1).trace, events);
  }

  lemma {:induction false} LeakStmt(s: Stmt, st: State) returns (o: Oracle)
    requires WfStmt(s) && LeakyStmt(s) && st.status.Running?
    ensures Barren(o) && var st' := MeaningStmt(o, s, st); st'.status.Running? && Left(st') > Left(st)
    decreases s
  {
    hide Chain, Meaning, Own;
    var t := st.trace + [Append];
    match s
    case Guard(h, body) =>
      o := Heads(h, t, !CanSkip(h, 0));
      ChainOwn(o, h, 0, true, t, []);
      OwnApart(st.trace, [Append]);
      if !CanSkip(h, 0) {
        LeakyFinishes(body);
        o := LeakPart(o, h, st, body, EndEvents);
      }
    case GuardElse(h, body, els) =>
      o := LeakElse(h, body, els, st);
    case Loop(range, body) =>
      o := PassAll;
      OwnApart(st.trace, [Append, Eval(range, [], Outcome([], true))]);
      assert st.trace + [Append] + [Eval(range, [], Outcome([], true))] == st.trace + [Append, Eval(range, [], Outcome([], true))];
  }

  lemma {:induction false} LeakElse(h: Row, body: Prog, els: Prog, st: State) returns (o: Oracle)
    requires WfStmt(GuardElse(h, body, els)) && LeakyStmt(GuardElse(h, body, els)) && st.status.Running?
    ensures Barren(o) && var st' := MeaningStmt(o, GuardElse(h, body, els), st); st'.status.Running? && Left(st') > Left(st)
    decreases GuardElse(h, body, els), 0
  {
    hide Chain, Meaning, Own;
    var t := st.trace + [Append];
    OwnApart(st.trace, [Append]);
    if LeakyPart(h, body) {
      o := Heads(h, t, true);
      ChainOwn(o, h, 0, true, t, []);
      LeakyFinishes(body);
      o := LeakPart(o, h, st, body, [ElseEvent] + EndEvents);
    } else if CanSkip(h, 0) && Leaky(els) {
      o := Heads(h, t, false);
      LeakyFinishes(els);
      o := LeakPart(o, h, st, els, EndEvents);
    } else {
      var n := OwnFails(h, 0, t, []);
      o := FailAt(n);
      o := LeakPart(o, h, st, els, EndEvents);
    }
  }

  lemma {:induction false} LeakyFinishes(p: Prog)
    ensures Leaky(p) ==> CanFinish(p)
    decreases p
  {
    if Leaky(p) {
      LeakyStmtFinishes(p.head);
      LeakyFinishes(p.tail);
    }
  }

  lemma {:induction false} LeakyStmtFinishes(s: Stmt)
    ensures LeakyStmt(s) ==> CanFinishStmt(s)
    decreases s
  {
    match s
    case Line(_) =>
    case Guard(h, body) =>
      LeakyFinishes(body);
      assert LeakyPart(h, body) ==> CanPass(h, 0) && CanFinish(body);
    case GuardElse(h, body, els) =>
      LeakyFinishes(body);
      assert LeakyPart(h, body) ==> CanPass(h, 0) && CanFinish(body);
      LeakyFinishes(els);
      SkipOwnSkips(h, 0);
    case Loop(_, _) =>
  }

  lemma {:induction false} SkipOwnSkips(row: Row, k: nat)
    requires k <= |row|
    ensures CanSkipOwn(row, k) ==> CanSkip(row, k)
    decreases |row| - k
  {
    if k < |row| { SkipOwnSkips(row, k + 1); }
  }

  lemma {:induction false} LeakProg(p: Prog, st: State) returns (o: Oracle)
    requires Wf(p) && Leaky(p) && st.status.Running?
    ensures Barren(o) && var st' := Meaning(o, p, st); st'.status.Running? && Left(st') > Left(st)
    decreases p, 0
  {
    hide MeaningStmt, Alike, LeakyStmt, Left;
    var s, tail := p.head, p.tail;
    var o1, o2;
    if LeakyStmt(s) && CanFinish(tail) {
      o1 := LeakStmt(s, st);
      o2 := MeaningFinishes(tail, MeaningStmt(o1, s, st));
    } else {
      o1 := StmtFinishes(s, st);
      o2 := LeakProg(tail, MeaningStmt(o1, s, st));
    }
    var st1 := MeaningStmt(o1, s, st);
    o := StmtThen(o1, s, st, o2);
    MeaningLocal(o2, o, tail, st1);
    StmtFollows(o1, s, st);
    LeftGrows(st, st1);
    MeaningFollows(o2, tail, st1);
    LeftGrows(st1, Meaning(o2, tail, st1));
  }

  // ----- Instances -----

  const Condition: Row := [Expr(If, [".x"])]
  const NoCondition: Row := [Expr(If, ["eq", ".x"])]

  lemma OneChain(o: Oracle, e: Expr, t: Trace)
    requires e.func.If? && !o.Evaluate(t, e, []).err && !IsEmpty(o.Evaluate(t, e, []).out)
    ensures var r := o.Evaluate(t, e, []);
            var t' := t + Effects(e, [], r);
            Chain(o, [e], 0, true, t, []) == if IsFalse(r.out) then Skipped(t') else Passed(t')
  {
    var r := o.Evaluate(t, e, []);
    assert Chain(o, [e], 1, true, t + Effects(e, [], r), r.out) == Passed(t + Effects(e, [], r));
  }

  /** A program of one empty block. */
  function OneBlock(h: Row): Prog {
    Cons(Guard(h, Nil), Nil)
  }

  lemma BlockMeans(o: Oracle, h: Row, t: Trace)
    requires HeaderRow(h) && !Chain(o, h, 0, true, [Append], []).Stopped? && t == Chain(o, h, 0, true, [Append], []).trace
    ensures Wf(OneBlock(h))
    ensures Meaning(o, OneBlock(h), State([], 0, Running)) ==
            if Chain(o, h, 0, true, [Append], []).Passed? then State(t + EndEvents, 0, Running) else State(t, 1, Running)
  {
    hide Chain;
    var st := State([], 0, Running);
    assert [] + [Append] == [Append];
    assert Meaning(o, Nil, st.(trace := t)) == st.(trace := t);
    var st1 := MeaningStmt(o, Guard(h, Nil), st);
    assert Meaning(o, Nil, st1) == st1;
  }

  /** A block that is skipped keeps its scope. */
  lemma SkippedBlockMeans()
    ensures Wf(OneBlock(Condition))
    ensures var st := Meaning(AllFalse, OneBlock(Condition), State([], 0, Running));
            st.status.Running? && st.leaks == 1 && Own(st.trace) == 0 && Open(st.trace) == 1
  {
    hide Meaning, Chain;
    assert Opens(Condition[0].func) && HeaderRow(Condition);
    OneChain(AllFalse, Condition[0], [Append]);
    BlockMeans(AllFalse, Condition, [Append, Eval(Condition[0], [], Outcome([Bool(false)], false))]);
    CountsTwo(Append, Eval(Condition[0], [], Outcome([Bool(false)], false)));
  }

  /** An "if" with two parameters of which the first is not "ne" opens two scopes, and its block, which is
      not skipped, closes one. */
  lemma FormlessIfMeans()
    ensures Wf(OneBlock(NoCondition))
    ensures var st := Meaning(PassAll, OneBlock(NoCondition), State([], 0, Running));
            st.status.Running? && st.leaks == 0 && Own(st.trace) == 1 && Open(st.trace) == 1
  {
    hide Meaning, Chain, Own, Open;
    assert Opens(NoCondition[0].func) && HeaderRow(NoCondition);
    OneChain(PassAll, NoCondition[0], [Append]);
    var r := Outcome([], false);
    assert PassAll.Evaluate([Append], NoCondition[0], []) == r;
    var t := [Append] + Effects(NoCondition[0], [], r);
    BlockMeans(PassAll, NoCondition, t);
    EffectsNet([Append], NoCondition[0], [], r);
    EndNet(t);
    CountsTwo(Append, Pop);
    OwnApart([], [Append]);
    assert [] + [Append] == [Append];
    OwnApart(t, EndEvents);
    assert Own([]) == 0 by { OwnNothing(); }
  }

  lemma OwnNothing()
    ensures Own([]) == 0
  {
  }
}
