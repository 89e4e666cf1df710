/**
  Life cycles of the two clients. A step is one section under the client's lock; any interleaving of
  steps is a run.
 */

/** The daemon's pub/sub client: four states and the futures that wait for a connection. */
module DaemonClient {

  datatype Mode = Disconnected | Connecting | Connected | Closed

  datatype Result = Ok | ErrDisconnected | ErrTimeout

  type Future = nat

  /** `issued` futures have been asked for so far, numbered from 0; `pending` wait; `fired` is the log of
      callbacks in the order they ran. */
  datatype State = State(mode: Mode, issued: nat, pending: set<Future>, fired: seq<(Future, Result)>)

  datatype Action =
    | StartConnecting
    | MoveToConnecting
    | MoveToDisconnected
    | MoveToClosed
    | ConnectReply
    | OnConnect
    | Timeout(f: Future)

  const Initial := State(Disconnected, 0, {}, [])

  /** Resolving runs the callbacks of all pending futures, in whatever order the map yields them. */
  ghost predicate Resolved(s: State, s': State, r: Result) {
    && s'.pending == {} && s'.issued == s.issued
    && s.fired <= s'.fired
    && |s'.fired| == |s.fired| + |s.pending|
    && (forall f :: f in s.pending ==> (f, r) in s'.fired[|s.fired|..])
    && (forall i :: |s.fired| <= i < |s'.fired| ==> s'.fired[i].0 in s.pending && s'.fired[i].1 == r)
  }

  function Fire(s: State, f: Future, r: Result): State {
    s.(fired := s.fired + [(f, r)])
  }

  ghost predicate Next(s: State, a: Action, s': State) {
    match a
    case StartConnecting =>
      s' == if s.mode.Disconnected? then s.(mode := Connecting) else s
    case MoveToConnecting =>
      if s.mode.Connected? then s'.mode == Connecting && Resolved(s, s', ErrDisconnected) else s' == s
    case MoveToDisconnected =>
      if s.mode.Disconnected? || s.mode.Closed? then s' == s else s'.mode == Disconnected && Resolved(s, s', ErrDisconnected)
    case MoveToClosed =>
      s' == s.(mode := Closed)
    case ConnectReply =>
      if s.mode.Connecting? then s'.mode == Connected && Resolved(s, s', Ok) else s' == s
    case OnConnect =>
      var t := s.(issued := s.issued + 1);
      s' ==
        if s.mode.Connected? then Fire(t, s.issued, Ok)
        else if s.mode.Disconnected? then Fire(t, s.issued, ErrDisconnected)
        else t.(pending := s.pending + {s.issued})
    case Timeout(f) =>
      s' == if f in s.pending then Fire(s.(pending := s.pending - {f}), f, ErrTimeout) else s
  }

  ghost predicate IsRun(run: seq<State>, actions: seq<Action>) {
    && |run| == |actions| + 1 && run[0] == Initial
    && forall i :: 0 <= i < |actions| ==> Next(run[i], actions[i], run[i + 1])
  }

  /** No future has fired twice. */
  ghost predicate FiredOnce(s: State) {
    forall i, j :: 0 <= i < j < |s.fired| ==> s.fired[i].0 != s.fired[j].0
  }

  /** Every future asked for is pending or has fired, not both; connected and disconnected clients
      keep none waiting. */
  ghost predicate Inv(s: State) {
    && FiredOnce(s)
    && (forall f :: f in s.pending ==> f < s.issued)
    && (forall i :: 0 <= i < |s.fired| ==> s.fired[i].0 < s.issued && s.fired[i].0 !in s.pending)
    && |s.pending| + |s.fired| == s.issued
    && (s.mode.Connected? || s.mode.Disconnected? ==> s.pending == {})
  }

  /** As many callbacks as pending futures, and each future among them: each exactly once. */
  lemma EachOnce(log: seq<(Future, Result)>, pending: set<Future>, r: Result)
    requires |log| == |pending| && forall f :: f in pending ==> (f, r) in log
    ensures forall i, j :: 0 <= i < j < |log| ==> log[i].0 != log[j].0
  {
    forall i, j | 0 <= i < j < |log|
      ensures log[i].0 != log[j].0
    {
      if log[i].0 == log[j].0 {
        RepeatMeansMore(log, pending, r, j);
      }
    }
  }

  /** The futures of a log are at most as many as its entries. */
  lemma {:induction false} LogAtMost(log: seq<(Future, Result)>, fs: set<Future>)
    requires forall f :: f in fs ==> exists i :: 0 <= i < |log| && log[i].0 == f
    ensures |fs| <= |log|
    decreases |log|
  {
    if fs != {} {
      var n := |log| - 1;
      var rest := fs - {log[n].0};
      forall f | f in rest
        ensures exists i :: 0 <= i < |log[..n]| && log[..n][i].0 == f
      {
        var i :| 0 <= i < |log| && log[i].0 == f;
        assert log[..n][i].0 == f;
      }
      LogAtMost(log[..n], rest);
      assert fs <= rest + {log[n].0};
      assert |fs| <= |rest| + 1;
    }
  }

  /** An entry whose future occurs earlier can be left out, so there are more entries than futures. */
  lemma RepeatMeansMore(log: seq<(Future, Result)>, pending: set<Future>, r: Result, j: nat)
    requires forall f :: f in pending ==> (f, r) in log
    requires j < |log| && exists i :: 0 <= i < j && log[i].0 == log[j].0
    ensures |pending| < |log|
  {
    var k :| 0 <= k < j && log[k].0 == log[j].0;
    var cut := log[..j] + log[j + 1..];
    forall f | f in pending
      ensures exists i :: 0 <= i < |cut| && cut[i].0 == f
    {
      var i :| 0 <= i < |log| && log[i] == (f, r);
      if i < j {
        assert cut[i].0 == f;
      } else if i == j {
        assert cut[k].0 == f;
      } else {
        assert cut[i - 1].0 == f;
      }
    }
    LogAtMost(cut, pending);
  }

  lemma ResolvedKeeps(s: State, s': State, r: Result)
    requires Inv(s) && Resolved(s, s', r)
    ensures Inv(s')
  {
    var n := |s.fired|;
    var log := s'.fired[n..];
    EachOnce(log, s.pending, r);
    forall i, j | 0 <= i < j < |s'.fired|
      ensures s'.fired[i].0 != s'.fired[j].0
    {
      if i < n {
        assert s'.fired[i] == s.fired[i];
        assert j < n ==> s'.fired[j] == s.fired[j];
      } else {
        assert s'.fired[i] == log[i - n] && s'.fired[j] == log[j - n];
      }
    }
  }

  lemma NextKeeps(s: State, a: Action, s': State)
    requires Inv(s) && Next(s, a, s')
    ensures Inv(s')
    ensures s.fired <= s'.fired && s.issued <= s'.issued
    ensures s.mode.Closed? ==> s'.mode.Closed?
    ensures s'.mode.Connected? ==> s.mode.Connected? || (s.mode.Connecting? && a.ConnectReply?)
  {
    match a
    case MoveToConnecting =>
      if s.mode.Connected? { ResolvedKeeps(s, s', ErrDisconnected); }
    case MoveToDisconnected =>
      if !s.mode.Disconnected? && !s.mode.Closed? { ResolvedKeeps(s, s', ErrDisconnected); }
    case ConnectReply =>
      if s.mode.Connecting? { ResolvedKeeps(s, s', Ok); }
    case _ =>
  }

  lemma {:induction false} RunKeeps(run: seq<State>, actions: seq<Action>, k: nat)
    requires IsRun(run, actions) && k < |run|
    ensures Inv(run[k])
    decreases k
  {
    hide Next, Inv;
    if k > 0 {
      RunKeeps(run, actions, k - 1);
      assert Next(run[k - 1], actions[k - 1], run[k - 1 + 1]);
      NextKeeps(run[k - 1], actions[k - 1], run[k]);
    } else {
      InitialOk();
    }
  }

  lemma InitialOk()
    ensures Inv(Initial)
  {
  }

  /** In every run: a closed client stays closed; a client becomes connected from connecting only;
      connected and disconnected clients have no future waiting; a future fires at most once, fires
      for good, and each one asked for is either waiting or has fired. */
  lemma {:induction false} LifeCycle(run: seq<State>, actions: seq<Action>, i: nat, k: nat)
    requires IsRun(run, actions) && i <= k < |run|
    ensures FiredOnce(run[k]) && |run[k].pending| + |run[k].fired| == run[k].issued
    ensures run[k].mode.Connected? || run[k].mode.Disconnected? ==> run[k].pending == {}
    ensures run[i].fired <= run[k].fired
    ensures run[i].mode.Closed? ==> run[k].mode.Closed?
    ensures i < k && run[k].mode.Connected? && !run[k - 1].mode.Connected? ==> run[k - 1].mode.Connecting?
    decreases k - i
  {
    hide Next;
    RunKeeps(run, actions, k);
    if i < k {
      LifeCycle(run, actions, i, k - 1);
      RunKeeps(run, actions, k - 1);
      assert Next(run[k - 1], actions[k - 1], run[k - 1 + 1]);
      NextKeeps(run[k - 1], actions[k - 1], run[k]);
    }
  }

  /** The client itself. A future is named by the number of the call that asked for it. */
  class Client {
    var mode: Mode
    var issued: nat
    var pending: set<Future>
    var fired: seq<(Future, Result)>

    ghost function Abstract(): State
      reads this
    {
      State(mode, issued, pending, fired)
    }

    constructor ()
      ensures Abstract() == Initial
    {
      mode, issued, pending, fired := Disconnected, 0, {}, [];
    }

    method ResolveConnectFutures(r: Result)
      modifies this`pending, this`fired
      ensures Resolved(old(Abstract()), Abstract(), r)
    {
      var rest := pending;
      while rest != {}
        invariant rest <= pending == old(pending)
        invariant old(fired) <= fired && |fired| == |old(fired)| + |pending| - |rest|
        invariant forall f :: f in pending && f !in rest ==> (f, r) in fired[|old(fired)|..]
        invariant forall i :: |old(fired)| <= i < |fired| ==> fired[i].0 in pending && fired[i].1 == r
        decreases |rest|
      {
        var f :| f in rest;
        ghost var n, before := |old(fired)|, fired;
        fired := fired + [(f, r)];
        rest := rest - {f};
        assert fired[n..] == before[n..] + [(f, r)];
      }
      pending := {};
    }

    method StartConnecting()
      modifies this`mode
      ensures Next(old(Abstract()), Action.StartConnecting, Abstract())
    {
      if mode.Disconnected? {
        mode := Connecting;
      }
    }

    method MoveToConnecting()
      modifies this
      ensures Next(old(Abstract()), Action.MoveToConnecting, Abstract())
    {
      if mode.Disconnected? || mode.Closed? || mode.Connecting? { return; }
      mode := Connecting;
      ResolveConnectFutures(ErrDisconnected);
    }

    method MoveToDisconnected()
      modifies this
      ensures Next(old(Abstract()), Action.MoveToDisconnected, Abstract())
    {
      if mode.Disconnected? || mode.Closed? { return; }
      mode := Disconnected;
      ResolveConnectFutures(ErrDisconnected);
    }

    method MoveToClosed()
      modifies this`mode
      ensures Next(old(Abstract()), Action.MoveToClosed, Abstract())
    {
      mode := Closed;
    }

    method ConnectReply()
      modifies this
      ensures Next(old(Abstract()), Action.ConnectReply, Abstract())
    {
      if !mode.Connecting? { return; }
      mode := Connected;
      ResolveConnectFutures(Ok);
    }

    method OnConnect()
      modifies this
      ensures Next(old(Abstract()), Action.OnConnect, Abstract())
    {
      var f := issued;
      issued := issued + 1;
      if mode.Connected? {
        fired := fired + [(f, Ok)];
      } else if mode.Disconnected? {
        fired := fired + [(f, ErrDisconnected)];
      } else {
        pending := pending + {f};
      }
    }

    method Timeout(f: Future)
      modifies this`pending, this`fired
      ensures Next(old(Abstract()), Action.Timeout(f), Abstract())
    {
      if f !in pending { return; }
      pending := pending - {f};
      fired := fired + [(f, ErrTimeout)];
    }
  }
}

/** The server's client: connecting runs the connect handler, closing the disconnect handler. */
module ServerClient {

  datatype Status = Connecting | Connected | Closed

  /** Who is in the lock around connecting and closing; closing remembers the status it found. */
  datatype Holder = Nobody | ConnectHandler | Closing(prev: Status)

  datatype Call = ConnectBegins | ConnectEnds | DisconnectRuns

  datatype State = State(status: Status, holder: Holder, calls: seq<Call>)

  datatype Action =
    | TriggerConnect(hasHandler: bool)
    | HandlerReturns
    | BeginClose
    | FinishClose(hasHandler: bool)

  const Initial := State(Connecting, Nobody, [])

  predicate Enabled(s: State, a: Action) {
    match a
    case TriggerConnect(_) => s.holder.Nobody?
    case HandlerReturns => s.holder.ConnectHandler?
    case BeginClose => s.holder.Nobody?
    case FinishClose(_) => s.holder.Closing?
  }

  function Step(s: State, a: Action): State
    requires Enabled(s, a)
  {
    match a
    case TriggerConnect(hasHandler) =>
      if !s.status.Connecting? then s
      else if !hasHandler then s.(status := Connected)
      else s.(holder := ConnectHandler, calls := s.calls + [ConnectBegins])
    case HandlerReturns =>
      s.(status := Connected, holder := Nobody, calls := s.calls + [ConnectEnds])
    case BeginClose =>
      if s.status.Closed? then s else s.(status := Closed, holder := Closing(s.status))
    case FinishClose(hasHandler) =>
      s.(holder := Nobody,
         calls := if hasHandler && s.holder.prev.Connected? then s.calls + [DisconnectRuns] else s.calls)
  }

  datatype Outcome = Stuck | Reached(s: State)

  function Run(actions: seq<Action>): Outcome {
    if actions == [] then Reached(Initial)
    else
      match Run(actions[..|actions| - 1])
      case Stuck => Stuck
      case Reached(s) => if Enabled(s, actions[|actions| - 1]) then Reached(Step(s, actions[|actions| - 1])) else Stuck
  }

  /** The handler calls that a status allows. */
  ghost predicate Inv(s: State) {
    match s.holder
    case ConnectHandler => s.status.Connecting? && s.calls == [ConnectBegins]
    case Closing(prev) => s.status.Closed? && !prev.Closed? &&
      (if prev.Connecting? then s.calls == [] else s.calls == [] || s.calls == [ConnectBegins, ConnectEnds])
    case Nobody =>
      match s.status
      case Connecting => s.calls == []
      case Connected => s.calls == [] || s.calls == [ConnectBegins, ConnectEnds]
      case Closed =>
        s.calls == [] || s.calls == [ConnectBegins, ConnectEnds] || s.calls == [DisconnectRuns] ||
        s.calls == [ConnectBegins, ConnectEnds, DisconnectRuns]
  }

  lemma {:induction false} RunKeeps(actions: seq<Action>)
    requires Run(actions).Reached?
    ensures Inv(Run(actions).s)
    decreases |actions|
  {
    if actions != [] {
      RunKeeps(actions[..|actions| - 1]);
    }
  }

  /** A client that is or was connected got there by a connect that completed: its handler returned, or
      there was no handler to run. */
  lemma {:induction false} ConnectCompleted(actions: seq<Action>)
    requires Run(actions).Reached?
    ensures var s := Run(actions).s;
            s.status.Connected? || s.holder == Closing(Connected) || DisconnectRuns in s.calls ==>
              ConnectEnds in s.calls || TriggerConnect(false) in actions
    decreases |actions|
  {
    if actions != [] {
      var before, last := actions[..|actions| - 1], actions[|actions| - 1];
      ConnectCompleted(before);
      assert actions == before + [last];
    }
  }

  /** In every run both handlers are called at most once, the disconnect handler after the connect
      handler has returned, never while it runs, and only when the client is closed; it runs alone only
      after a connect that had no handler. */
  lemma HandlersPair(actions: seq<Action>)
    requires Run(actions).Reached?
    ensures var s := Run(actions).s;
            && (s.calls <= [ConnectBegins, ConnectEnds, DisconnectRuns] || s.calls == [DisconnectRuns])
            && (s.calls == [DisconnectRuns] ==> TriggerConnect(false) in actions)
            && (DisconnectRuns in s.calls ==> s.status.Closed?)
            && (s.holder.ConnectHandler? ==> s.calls == [ConnectBegins])
  {
    RunKeeps(actions);
    ConnectCompleted(actions);
  }

  /** Closed is for good, and no connect handler starts afterwards. */
  lemma {:induction false} ClosedStays(actions: seq<Action>, more: seq<Action>)
    requires Run(actions).Reached? && Run(actions).s.status.Closed? && Run(actions + more).Reached?
    ensures var s, s' := Run(actions).s, Run(actions + more).s;
            s'.status.Closed? && (ConnectBegins in s'.calls <==> ConnectBegins in s.calls)
    decreases |more|
  {
    var all := actions + more;
    if more == [] {
      assert all == actions;
    } else {
      var init := more[..|more| - 1];
      assert all[..|all| - 1] == actions + init;
      ClosedStays(actions, init);
      RunKeeps(actions + init);
    }
  }

  /** The client itself; each method holds the connect lock from beginning to end. */
  class Client {
    var status: Status
    var calls: seq<Call>

    ghost function Abstract(): State
      reads this
    {
      State(status, Nobody, calls)
    }

    constructor ()
      ensures Abstract() == Initial
    {
      status, calls := Connecting, [];
    }

    method TriggerConnect(hasHandler: bool)
      modifies this
      ensures var s := Step(old(Abstract()), Action.TriggerConnect(hasHandler));
              Abstract() == if s.holder.ConnectHandler? then Step(s, HandlerReturns) else s
    {
      if !status.Connecting? { return; }
      if !hasHandler {
        status := Connected;
        return;
      }
      calls := calls + [ConnectBegins];
      calls := calls + [ConnectEnds];
      status := Connected;
    }

    method Close(hasHandler: bool)
      modifies this
      ensures var s := Step(old(Abstract()), BeginClose);
              Abstract() == if s.holder.Closing? then Step(s, FinishClose(hasHandler)) else s
    {
      if status.Closed? { return; }
      var prevStatus := status;
      status := Closed;
      if hasHandler && prevStatus.Connected? {
        calls := calls + [DisconnectRuns];
      }
    }
  }
}
