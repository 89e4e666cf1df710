/**
  Which parts of a program some run can reach, and oracles that steer a run there.

  Whether a row can be passed or skipped, and whether a program can run to its end, is read off the
  rows. The oracles of this module show that nothing less would do.
 */
module Reach {
  import opened Common
  import opened Template
  import opened Runtime
  import opened Structured

  // ----- What rows allow -----

  /** An expression behind which no run goes on. */
  predicate Stops(f: Func) {
    f.Return? || f.SendSync?
  }

  /** An expression that can skip the block it heads: by an error, an empty string or a false "if". */
  predicate CanFail(e: Expr) {
    !Stops(e.func) && !e.func.Send? && (Formless(e) ==> |e.params| == 2)
  }

  /** The expressions from k on can all be passed. */
  predicate CanPass(row: Row, k: nat)
    requires k <= |row|
    decreases |row| - k
  {
    k == |row| || (!Stops(row[k].func) && CanPass(row, k + 1))
  }

  /** One of the expressions from k on can fail, the ones before it passed. */
  predicate CanSkip(row: Row, k: nat)
    requires k <= |row|
    decreases |row| - k
  {
    k < |row| && !Stops(row[k].func) && (CanFail(row[k]) || CanSkip(row, k + 1))
  }

  predicate CanFinishStmt(s: Stmt) {
    match s
    case Line(row) => CanPass(row, 0)
    case Guard(h, body) => CanSkip(h, 0) || (CanPass(h, 0) && CanFinish(body))
    case GuardElse(h, body, els) => (CanPass(h, 0) && CanFinish(body)) || (CanSkip(h, 0) && CanFinish(els))
    case Loop(_, _) => true
  }

  /** Some run goes to the end of the program. */
  predicate CanFinish(p: Prog) {
    p.Cons? ==> CanFinishStmt(p.head) && CanFinish(p.tail)
  }

  lemma {:induction false} ChainCan(o: Oracle, row: Row, k: nat, guarded: bool, t: Trace, input: seq<Value>)
    requires k <= |row|
    ensures var r := Chain(o, row, k, guarded, t, input);
            && (r.Passed? ==> CanPass(row, k)) && (r.Skipped? ==> CanSkip(row, k))
            && (r.Stopped? ==> !r.status.Running?) && (!guarded && PlainRow(row) ==> !r.Skipped?)
    decreases |row| - k
  {
    if k < |row| {
      var r := o.Evaluate(t, row[k], input);
      var t' := t + Effects(row[k], input, r);
      ChainCan(o, row, k + 1, guarded, t', input);
      ChainCan(o, row, k + 1, guarded, t', r.out);
    }
  }

  lemma {:induction false} StmtCan(o: Oracle, s: Stmt, st: State)
    requires WfStmt(s) && MeaningStmt(o, s, st).status.Running?
    ensures CanFinishStmt(s)
    decreases s
  {
    var t := st.trace + [Append];
    match s
    case Line(row) => ChainCan(o, row, 0, false, st.trace, []);
    case Guard(h, body) =>
      ChainCan(o, h, 0, true, t, []);
      var r := Chain(o, h, 0, true, t, []);
      if r.Passed? { MeaningCan(o, body, st.(trace := r.trace)); }
    case GuardElse(h, body, els) =>
      ChainCan(o, h, 0, true, t, []);
      var r := Chain(o, h, 0, true, t, []);
      if r.Passed? { MeaningCan(o, body, st.(trace := r.trace)); }
      if r.Skipped? { MeaningCan(o, els, st.(trace := r.trace)); }
    case Loop(_, _) =>
  }

  lemma {:induction false} MeaningCan(o: Oracle, p: Prog, st: State)
    requires Wf(p) && Meaning(o, p, st).status.Running?
    ensures CanFinish(p)
    decreases p
  {
    hide MeaningStmt;
    if p.Cons? {
      StmtCan(o, p.head, st);
      MeaningCan(o, p.tail, MeaningStmt(o, p.head, st));
    }
  }

  // ----- Runs only grow -----

  /** State b comes after state a: the trace has grown, by something else than closing a scope first,
      and a run only stops by an event. */
  ghost predicate Follows(a: State, b: State) {
    && a.trace <= b.trace && a.leaks <= b.leaks
    && (!a.status.Running? ==> b == a)
    && (|a.trace| < |b.trace| ==> !b.trace[|a.trace|].Pop?)
    && (|a.trace| == |b.trace| ==> b.status == a.status)
  }

  lemma FollowsTrans(a: State, b: State, c: State)
    requires Follows(a, b) && Follows(b, c)
    ensures Follows(a, c)
  {
  }

  lemma FinishFollows(st: State, events: Trace)
    requires events != [] && !events[0].Pop?
    ensures Follows(st, Finish(st, events))
  {
  }

  lemma {:induction false} ChainFollows(o: Oracle, row: Row, k: nat, guarded: bool, t: Trace, input: seq<Value>)
    requires k <= |row|
    ensures var r := Chain(o, row, k, guarded, t, input);
            && t <= r.trace && (|t| < |r.trace| ==> r.trace[|t|].Eval?)
            && (r.Stopped? ==> |t| < |r.trace| && !r.status.Running?)
    decreases |row| - k
  {
    if k < |row| {
      var r := o.Evaluate(t, row[k], input);
      var t' := t + Effects(row[k], input, r);
      ChainFollows(o, row, k + 1, guarded, t', input);
      ChainFollows(o, row, k + 1, guarded, t', r.out);
    }
  }

  lemma {:induction false} StmtFollows(o: Oracle, s: Stmt, st: State)
    requires WfStmt(s) && st.status.Running?
    ensures Follows(st, MeaningStmt(o, s, st))
    decreases s, 0
  {
    hide Meaning, Iterate, Chain;
    var t := st.trace + [Append];
    match s
    case Line(row) =>
      ChainFollows(o, row, 0, false, st.trace, []);
    case Guard(h, body) =>
      ChainFollows(o, h, 0, true, t, []);
      BlockFollows(o, body, st, Chain(o, h, 0, true, t, []).trace, EndEvents);
    case GuardElse(h, body, els) =>
      ChainFollows(o, h, 0, true, t, []);
      BlockFollows(o, body, st, Chain(o, h, 0, true, t, []).trace, [ElseEvent] + EndEvents);
      BlockFollows(o, els, st, Chain(o, h, 0, true, t, []).trace, EndEvents);
    case Loop(range, body) =>
      var t' := t + [Eval(range, [], o.Evaluate(t, range, []))];
      assert t' + EndEvents == st.trace + ([Append] + [Eval(range, [], o.Evaluate(t, range, []))] + EndEvents);
      if o.items(t, range, []).Some? && o.items(t, range, []).value != [] {
        IterateFollows(o, range, body, o.items(t, range, []).value, 0, st.(trace := t'));
        FollowsTrans(st, st.(trace := t'), MeaningStmt(o, s, st));
      }
  }

  /** The body of a block that began at st. */
  lemma {:induction false} BlockFollows(o: Oracle, body: Prog, st: State, t: Trace, events: Trace)
    requires Wf(body) && st.status.Running? && st.trace + [Append] <= t
    requires events == EndEvents || events == [ElseEvent] + EndEvents
    ensures Follows(st, Finish(Meaning(o, body, st.(trace := t)), events))
    decreases body, 1
  {
    hide Meaning;
    var st1 := st.(trace := t);
    MeaningFollows(o, body, st1);
    FinishFollows(Meaning(o, body, st1), events);
    FollowsTrans(st1, Meaning(o, body, st1), Finish(Meaning(o, body, st1), events));
    assert t[|st.trace|] == (st.trace + [Append])[|st.trace|];
    FollowsTrans(st, st1, Finish(Meaning(o, body, st1), events));
  }

  lemma {:induction false} IterateFollows(o: Oracle, range: Expr, body: Prog, items: seq<Item>, k: nat, st: State)
    requires Wf(body) && |range.params| >= 3 && k < |items| && st.status.Running?
    ensures Follows(st, Iterate(o, range, body, items, k, st))
    ensures st.trace + Binds(range, items[k]) <= Iterate(o, range, body, items, k, st).trace
    decreases body, 1 + |items| - k
  {
    hide Meaning;
    var bound := st.Emit(Binds(range, items[k]));
    var inner := Meaning(o, body, bound);
    var after := Finish(inner, EndEvents);
    MeaningFollows(o, body, bound);
    FinishFollows(inner, EndEvents);
    FollowsTrans(st, bound, inner);
    FollowsTrans(st, inner, after);
    if after.status.Running? && k + 1 < |items| {
      var next := after.Emit([Append]);
      IterateFollows(o, range, body, items, k + 1, next);
      FollowsTrans(st, after, next);
      FollowsTrans(st, next, Iterate(o, range, body, items, k + 1, next));
    }
  }

  lemma {:induction false} MeaningFollows(o: Oracle, p: Prog, st: State)
    requires Wf(p) && st.status.Running?
    ensures Follows(st, Meaning(o, p, st))
    decreases p, 0
  {
    hide MeaningStmt;
    if p.Cons? {
      var st1 := MeaningStmt(o, p.head, st);
      StmtFollows(o, p.head, st);
      if st1.status.Running? {
        MeaningFollows(o, p.tail, st1);
        FollowsTrans(st, st1, Meaning(o, p.tail, st1));
      }
    }
  }

  // ----- A run asks the oracle at the lengths it passes through -----

  /** The two oracles give the same answers after traces of length lo..hi. */
  ghost predicate Alike(o: Oracle, o': Oracle, lo: nat, hi: nat) {
    forall t, e, input :: lo <= |t| < hi ==>
      o.eval(t, e, input) == o'.eval(t, e, input) && o.items(t, e, input) == o'.items(t, e, input)
  }

  lemma AlikePart(o: Oracle, o': Oracle, lo: nat, hi: nat, lo': nat, hi': nat)
    requires Alike(o, o', lo, hi) && lo <= lo' && hi' <= hi
    ensures Alike(o, o', lo', hi')
  {
  }

  lemma AlikeEvaluate(o: Oracle, o': Oracle, t: Trace, e: Expr, input: seq<Value>, hi: nat)
    requires |t| < hi && Alike(o, o', |t|, hi)
    ensures o.Evaluate(t, e, input) == o'.Evaluate(t, e, input)
  {
  }

  lemma {:induction false} ChainLocal(o: Oracle, o': Oracle, row: Row, k: nat, guarded: bool, t: Trace, input: seq<Value>)
    requires k <= |row| && Alike(o, o', |t|, |Chain(o, row, k, guarded, t, input).trace|)
    ensures Chain(o', row, k, guarded, t, input) == Chain(o, row, k, guarded, t, input)
    decreases |row| - k
  {
    if k < |row| {
      var hi := |Chain(o, row, k, guarded, t, input).trace|;
      var r := o.Evaluate(t, row[k], input);
      var t' := t + Effects(row[k], input, r);
      ChainFollows(o, row, k + 1, guarded, t', input);
      ChainFollows(o, row, k + 1, guarded, t', r.out);
      hide Alike;
      AlikeEvaluate(o, o', t, row[k], input, hi);
      AlikePart(o, o', |t|, hi, |t'|, hi);
      if row[k].func.Send? && !r.err && r.out != [] {
        ChainLocal(o, o', row, k + 1, guarded, t', input);
      } else if Chain(o, row, k, guarded, t, input) == Chain(o, row, k + 1, guarded, t', r.out) {
        ChainLocal(o, o', row, k + 1, guarded, t', r.out);
      }
    }
  }

  lemma {:induction false} StmtLocal(o: Oracle, o': Oracle, s: Stmt, st: State)
    requires WfStmt(s) && st.status.Running? && Alike(o, o', |st.trace|, |MeaningStmt(o, s, st).trace|)
    ensures MeaningStmt(o', s, st) == MeaningStmt(o, s, st)
    decreases s, 2
  {
    hide Alike, Chain, Meaning, Iterate;
    var lo, hi, t := |st.trace|, |MeaningStmt(o, s, st).trace|, st.trace + [Append];
    match s
    case Line(row) =>
      ChainLocal(o, o', row, 0, false, st.trace, []);
    case Guard(h, body) =>
      var r := Chain(o, h, 0, true, t, []);
      ChainFollows(o, h, 0, true, t, []);
      if r.Passed? { PartLocal(o, o', body, st.(trace := r.trace), lo, hi); }
      HeaderLocal(o, o', h, t, lo, hi);
    case GuardElse(h, body, els) =>
      var r := Chain(o, h, 0, true, t, []);
      ChainFollows(o, h, 0, true, t, []);
      if r.Passed? { PartLocal(o, o', body, st.(trace := r.trace), lo, hi); }
      if r.Skipped? { PartLocal(o, o', els, st.(trace := r.trace), lo, hi); }
      HeaderLocal(o, o', h, t, lo, hi);
    case Loop(range, body) =>
      var t' := t + [Eval(range, [], o.Evaluate(t, range, []))];
      var st1 := st.(trace := t');
      var items := o.items(t, range, []);
      if items.Some? && items.value != [] {
        IterateFollows(o, range, body, items.value, 0, st1);
        AlikePart(o, o', lo, hi, |t'|, hi);
        IterateLocal(o, o', range, body, items.value, 0, st1);
      }
      AlikePart(o, o', lo, hi, |t|, hi);
      AlikeItems(o, o', t, range, hi);
      AlikeEvaluate(o, o', t, range, [], hi);
  }

  lemma AlikeItems(o: Oracle, o': Oracle, t: Trace, e: Expr, hi: nat)
    requires |t| < hi && Alike(o, o', |t|, hi)
    ensures o.items(t, e, []) == o'.items(t, e, [])
  {
  }

  lemma HeaderLocal(o: Oracle, o': Oracle, h: Row, t: Trace, lo: nat, hi: nat)
    requires lo <= |t| && |Chain(o, h, 0, true, t, []).trace| <= hi && Alike(o, o', lo, hi)
    ensures Chain(o', h, 0, true, t, []) == Chain(o, h, 0, true, t, [])
  {
    AlikePart(o, o', lo, hi, |t|, |Chain(o, h, 0, true, t, []).trace|);
    ChainLocal(o, o', h, 0, true, t, []);
  }

  /** A part of a statement. */
  lemma {:induction false} PartLocal(o: Oracle, o': Oracle, p: Prog, st: State, lo: nat, hi: nat)
    requires Wf(p) && st.status.Running?
    requires lo <= |st.trace| && |Meaning(o, p, st).trace| <= hi && Alike(o, o', lo, hi)
    ensures Meaning(o', p, st) == Meaning(o, p, st) && |st.trace| <= |Meaning(o, p, st).trace|
    decreases p, 1
  {
    MeaningFollows(o, p, st);
    AlikePart(o, o', lo, hi, |st.trace|, |Meaning(o, p, st).trace|);
    MeaningLocal(o, o', p, st);
  }

  lemma {:induction false} IterateLocal(o: Oracle, o': Oracle, range: Expr, body: Prog, items: seq<Item>, k: nat, st: State)
    requires Wf(body) && |range.params| >= 3 && k < |items| && st.status.Running?
    requires Alike(o, o', |st.trace|, |Iterate(o, range, body, items, k, st).trace|)
    ensures Iterate(o', range, body, items, k, st) == Iterate(o, range, body, items, k, st)
    decreases body, 2 + |items| - k
  {
    hide Alike, Meaning;
    var lo, hi := |st.trace|, |Iterate(o, range, body, items, k, st).trace|;
    var bound := st.Emit(Binds(range, items[k]));
    var after := Finish(Meaning(o, body, bound), EndEvents);
    if after.status.Running? && k + 1 < |items| {
      var next := after.Emit([Append]);
      IterateFollows(o, range, body, items, k + 1, next);
      MeaningFollows(o, body, bound);
      AlikePart(o, o', lo, hi, |next.trace|, hi);
      IterateLocal(o, o', range, body, items, k + 1, next);
    }
    PartLocal(o, o', body, bound, lo, hi);
  }

  lemma {:induction false} MeaningLocal(o: Oracle, o': Oracle, p: Prog, st: State)
    requires Wf(p) && st.status.Running? && Alike(o, o', |st.trace|, |Meaning(o, p, st).trace|)
    ensures Meaning(o', p, st) == Meaning(o, p, st)
    decreases p, 0
  {
    hide Alike, MeaningStmt;
    if p.Cons? {
      var hi, st1 := |Meaning(o, p, st).trace|, MeaningStmt(o, p.head, st);
      StmtFollows(o, p.head, st);
      if st1.status.Running? {
        MeaningFollows(o, p.tail, st1);
        AlikePart(o, o', |st.trace|, hi, |st1.trace|, hi);
        MeaningLocal(o, o', p.tail, st1);
      }
      AlikePart(o, o', |st.trace|, hi, |st.trace|, |st1.trace|);
      StmtLocal(o, o', p.head, st);
    }
  }

  // ----- Steering -----

  /** Answers as o until the trace is n long, then as o'. */
  function Patch(o: Oracle, n: nat, o': Oracle): Oracle {
    Oracle((t, e, input) => if |t| < n then o.eval(t, e, input) else o'.eval(t, e, input),
           (t, e, input) => if |t| < n then o.items(t, e, input) else o'.items(t, e, input))
  }

  lemma PatchAlike(o: Oracle, n: nat, o': Oracle)
    ensures forall lo: nat, hi: nat :: hi <= n ==> Alike(o, Patch(o, n, o'), lo, hi)
    ensures forall lo: nat, hi: nat :: n <= lo ==> Alike(o', Patch(o, n, o'), lo, hi)
  {
  }

  /** Every range fails. */
  ghost predicate Barren(o: Oracle) {
    forall t, e, input :: o.items(t, e, input) == None
  }

  /** Expressions succeed, ranges fail. */
  const PassAll := Oracle((t, e, input) => Outcome([Other(0)], false), (t, e, input) => None)

  /** The expression evaluated after a trace of length n fails, too. */
  function FailAt(n: nat): Oracle {
    Oracle((t: Trace, e, input) => if |t| == n then Outcome([], true) else Outcome([Other(0)], false), (t, e, input) => None)
  }

  ghost predicate Steerable(row: Row) {
    forall k :: 0 <= k < |row| ==> HeaderFunc(row[k].func)
  }

  lemma {:induction false} ChainPasses(row: Row, k: nat, guarded: bool, t: Trace, input: seq<Value>)
    requires Steerable(row) && k <= |row| && CanPass(row, k)
    ensures Chain(PassAll, row, k, guarded, t, input).Passed?
    decreases |row| - k
  {
    if k < |row| {
      var r := PassAll.Evaluate(t, row[k], input);
      var t' := t + Effects(row[k], input, r);
      ChainPasses(row, k + 1, guarded, t', input);
      ChainPasses(row, k + 1, guarded, t', r.out);
    }
  }

  lemma {:induction false} ChainFails(row: Row, k: nat, t: Trace, input: seq<Value>) returns (n: nat)
    requires Steerable(row) && k <= |row| && CanSkip(row, k)
    ensures n >= |t| && Chain(FailAt(n), row, k, true, t, input).Skipped?
    decreases |row| - k
  {
    if CanFail(row[k]) {
      n := |t|;
    } else {
      var r := PassAll.Evaluate(t, row[k], input);
      n := ChainFails(row, k + 1, t + Effects(row[k], input, r), if row[k].func.Send? then input else r.out);
      assert FailAt(n).Evaluate(t, row[k], input) == r;
    }
  }

  /** An oracle that gets past a header row as wanted. */
  lemma Heads(h: Row, t: Trace, pass: bool) returns (o: Oracle)
    requires HeaderRow(h) && (if pass then CanPass(h, 0) else CanSkip(h, 0))
    ensures Barren(o) && var r := Chain(o, h, 0, true, t, []); if pass then r.Passed? else r.Skipped?
  {
    hide Chain;
    if pass {
      ChainPasses(h, 0, true, t, []);
      o := PassAll;
    } else {
      var n := ChainFails(h, 0, t, []);
      o := FailAt(n);
    }
  }

  /** An oracle o that has got past a header row, and then o' for the part of the block that follows. */
  lemma HeadThen(o: Oracle, h: Row, t: Trace, o': Oracle) returns (o2: Oracle)
    requires !Chain(o, h, 0, true, t, []).Stopped?
    ensures var r := Chain(o, h, 0, true, t, []);
            && o2 == Patch(o, |r.trace|, o') && |t| <= |r.trace|
            && Chain(o2, h, 0, true, t, []) == r
            && (forall hi: nat :: Alike(o', o2, |r.trace|, hi))
  {
    hide Chain, Alike;
    var n := |Chain(o, h, 0, true, t, []).trace|;
    o2 := Patch(o, n, o');
    ChainFollows(o, h, 0, true, t, []);
    PatchAlike(o, n, o');
    ChainLocal(o, o2, h, 0, true, t, []);
  }

  /** A program that can finish does so under some oracle, even if all ranges fail. */
  lemma {:induction false} StmtFinishes(s: Stmt, st: State) returns (o: Oracle)
    requires WfStmt(s) && CanFinishStmt(s) && st.status.Running?
    ensures MeaningStmt(o, s, st).status.Running? && Barren(o)
    decreases s, 0
  {
    hide Chain, Meaning;
    match s
    case Line(row) =>
      ChainPasses(row, 0, false, st.trace, []);
      o := PassAll;
    case Guard(h, body) =>
      o := Heads(h, st.trace + [Append], !CanSkip(h, 0));
      if !CanSkip(h, 0) {
        o := PartFinishes(o, h, st, body);
      }
    case GuardElse(h, body, els) =>
      var pass := CanPass(h, 0) && CanFinish(body);
      o := Heads(h, st.trace + [Append], pass);
      o := PartFinishes(o, h, st, if pass then body else els);
    case Loop(range, body) =>
      o := PassAll;
  }

  lemma {:induction false} PartFinishes(o: Oracle, h: Row, st: State, p: Prog) returns (o2: Oracle)
    requires Wf(p) && CanFinish(p) && st.status.Running? && Barren(o)
    requires !Chain(o, h, 0, true, st.trace + [Append], []).Stopped?
    ensures var r := Chain(o, h, 0, true, st.trace + [Append], []);
            && Chain(o2, h, 0, true, st.trace + [Append], []) == r
            && Meaning(o2, p, st.(trace := r.trace)).status.Running? && Barren(o2)
    decreases p, 1
  {
    hide Chain, Meaning, Alike;
    var st1 := st.(trace := Chain(o, h, 0, true, st.trace + [Append], []).trace);
    var o' := MeaningFinishes(p, st1);
    o2 := HeadThen(o, h, st.trace + [Append], o');
    MeaningLocal(o', o2, p, st1);
  }

  lemma {:induction false} MeaningFinishes(p: Prog, st: State) returns (o: Oracle)
    requires Wf(p) && CanFinish(p) && st.status.Running?
    ensures Meaning(o, p, st).status.Running? && Barren(o)
    decreases p, 0
  {
    hide MeaningStmt, Alike;
    match p
    case Nil => o := PassAll;
    case Cons(s, tail) =>
      var o1 := StmtFinishes(s, st);
      var o2 := MeaningFinishes(tail, MeaningStmt(o1, s, st));
      o := StmtThen(o1, s, st, o2);
      MeaningLocal(o2, o, tail, MeaningStmt(o1, s, st));
  }

  /** An oracle o1 for a statement, and then o2 for what follows. */
  lemma StmtThen(o1: Oracle, s: Stmt, st: State, o2: Oracle) returns (o: Oracle)
    requires WfStmt(s) && st.status.Running?
    ensures var st1 := MeaningStmt(o1, s, st);
            && o == Patch(o1, |st1.trace|, o2) && |st.trace| <= |st1.trace|
            && MeaningStmt(o, s, st) == st1
            && (forall hi: nat :: Alike(o2, o, |st1.trace|, hi))
  {
    hide MeaningStmt, Alike;
    var n := |MeaningStmt(o1, s, st).trace|;
    o := Patch(o1, n, o2);
    StmtFollows(o1, s, st);
    PatchAlike(o1, n, o2);
    StmtLocal(o1, o, s, st);
  }
}
