/**
  Subscribing and unsubscribing clients against the broker.

  The first subscriber of a channel subscribes the node at the broker. When a channel has lost its last
  one, a job is submitted that later unsubscribes the node, if there still is no subscriber by then.
  All of this runs under a lock chosen by the channel's name. A state is what the hub, the broker, the
  dissolver and the goroutines in the middle of an operation hold; a step is what happens between two
  points where another goroutine may come in.
 */
module Subscriptions {

  type Channel = string
  type Client = string

  /** The subscribers of each channel; a channel without any has no entry. */
  type Subs = map<Channel, set<Client>>

  ghost predicate NoEmptyEntry(subs: Subs) {
    forall ch :: ch in subs ==> subs[ch] != {}
  }

  /** Adds a subscriber; the flag tells whether it is the channel's first. */
  function AddSub(subs: Subs, ch: Channel, c: Client): (Subs, bool) {
    (subs[ch := (if ch in subs then subs[ch] else {}) + {c}], ch !in subs)
  }

  /** Removes a subscriber; the flag claims that the channel has none left. It also answers so when the
      client was not subscribed, whether or not others are. */
  function RemoveSub(subs: Subs, ch: Channel, c: Client): (Subs, bool) {
    if ch !in subs || c !in subs[ch] then (subs, true)
    else if subs[ch] - {c} == {} then (subs - {ch}, true)
    else (subs[ch := subs[ch] - {c}], false)
  }

  /** Where a goroutine stands in an operation on a channel. */
  datatype Phase =
    | Subscribing(ch: Channel, c: Client)  // holds the lock, was first, waits for the broker
    | Undoing(ch: Channel, c: Client)      // holds the lock, the broker refused
    | Submitting(ch: Channel)              // holds the lock, about to submit a job
    | Taken(ch: Channel)                   // a worker with a job, not yet in the lock
    | Unsubscribing(ch: Channel)           // a worker in the lock, waits for the broker
    | Retrying(ch: Channel)                // a worker about to put a failed job back
  {
    predicate Locked() {
      !Taken? && !Retrying?
    }

    predicate First() {
      Subscribing? || Undoing?
    }

    predicate HasJob() {
      !First()
    }
  }

  type Id = nat

  datatype State = State(subs: Subs, broker: set<Channel>, jobs: seq<Channel>, closed: bool, at: map<Id, Phase>)

  const Initial := State(map[], {}, [], false, map[])

  /** Steps by goroutine t. A broker call that fails may have taken effect all the same (`landed`). */
  datatype Action =
    | BeginAdd(t: Id, ch: Channel, c: Client)
    | SubscribeReturns(t: Id, ok: bool, landed: bool)
    | UndoAdd(t: Id)
    | BeginRemove(t: Id, ch: Channel, c: Client)
    | Submit(t: Id)
    | TakeJob(t: Id)
    | LockJob(t: Id)
    | UnsubscribeReturns(t: Id, ok: bool, landed: bool)
    | Resubmit(t: Id)
    | CloseDissolver

  /** The lock of a channel, by index; different channels may share one. */
  type LockOf = Channel -> nat

  predicate Free(s: State, lockOf: LockOf, ch: Channel) {
    forall t :: t in s.at && s.at[t].Locked() ==> lockOf(s.at[t].ch) != lockOf(ch)
  }

  function Leave(s: State, t: Id): State {
    s.(at := s.at - {t})
  }

  /** Puts a job into the dissolver's queue, which drops it when it is closed. */
  function Enqueue(s: State, ch: Channel): State {
    if s.closed then s else s.(jobs := s.jobs + [ch])
  }

  predicate Enabled(s: State, lockOf: LockOf, a: Action) {
    match a
    case BeginAdd(t, ch, _) => t !in s.at && Free(s, lockOf, ch)
    case SubscribeReturns(t, ok, landed) => t in s.at && s.at[t].Subscribing? && (ok ==> landed)
    case UndoAdd(t) => t in s.at && s.at[t].Undoing?
    case BeginRemove(t, ch, _) => t !in s.at && Free(s, lockOf, ch)
    case Submit(t) => t in s.at && s.at[t].Submitting?
    case TakeJob(t) => t !in s.at && s.jobs != []
    case LockJob(t) => t in s.at && s.at[t].Taken? && Free(s, lockOf, s.at[t].ch)
    case UnsubscribeReturns(t, ok, landed) => t in s.at && s.at[t].Unsubscribing? && (ok ==> landed)
    case Resubmit(t) => t in s.at && s.at[t].Retrying?
    case CloseDissolver => true
  }

  function Step(s: State, lockOf: LockOf, a: Action): State
    requires Enabled(s, lockOf, a)
  {
    match a
    case BeginAdd(t, ch, c) =>
      var (subs, first) := AddSub(s.subs, ch, c);
      s.(subs := subs, at := if first then s.at[t := Subscribing(ch, c)] else s.at)
    case SubscribeReturns(t, ok, landed) =>
      var ch := s.at[t].ch;
      var s1 := s.(broker := if landed then s.broker + {ch} else s.broker);
      if ok then Leave(s1, t) else s1.(at := s.at[t := Undoing(ch, s.at[t].c)])
    case UndoAdd(t) =>
      Leave(s.(subs := RemoveSub(s.subs, s.at[t].ch, s.at[t].c).0), t)
    case BeginRemove(t, ch, c) =>
      var (subs, empty) := RemoveSub(s.subs, ch, c);
      s.(subs := subs, at := if empty then s.at[t := Submitting(ch)] else s.at)
    case Submit(t) =>
      Leave(Enqueue(s, s.at[t].ch), t)
    case TakeJob(t) =>
      s.(jobs := s.jobs[1..], at := s.at[t := Taken(s.jobs[0])])
    case LockJob(t) =>
      if s.at[t].ch !in s.subs then s.(at := s.at[t := Unsubscribing(s.at[t].ch)]) else Leave(s, t)
    case UnsubscribeReturns(t, ok, landed) =>
      var ch := s.at[t].ch;
      var s1 := s.(broker := if landed then s.broker - {ch} else s.broker);
      if ok then Leave(s1, t) else s1.(at := s.at[t := Retrying(ch)])
    case Resubmit(t) =>
      Leave(Enqueue(s, s.at[t].ch), t)
    case CloseDissolver =>
      s.(jobs := [], closed := true)
  }

  // ----- Invariant -----

  /** No two goroutines are in the same lock. */
  ghost predicate Exclusive(s: State, lockOf: LockOf) {
    forall t, u :: t in s.at && u in s.at && t != u && s.at[t].Locked() && s.at[u].Locked() ==>
      lockOf(s.at[t].ch) != lockOf(s.at[u].ch)
  }

  /** What the goroutines in the middle of an operation rely on. */
  ghost predicate Locals(s: State) {
    && (forall t :: t in s.at && s.at[t].First() ==> s.at[t].ch in s.subs && s.subs[s.at[t].ch] == {s.at[t].c})
    && (forall t :: t in s.at && s.at[t].Unsubscribing? ==> s.at[t].ch !in s.subs)
  }

  /** Some goroutine is subscribing the node to ch. */
  ghost predicate Starting(s: State, ch: Channel) {
    exists t :: t in s.at && s.at[t].First() && s.at[t].ch == ch
  }

  /** A subscribed channel is subscribed at the broker or about to be. */
  ghost predicate Covered(s: State) {
    forall ch :: ch in s.subs && ch !in s.broker ==> Starting(s, ch)
  }

  /** A job for ch is queued or in somebody's hands. */
  ghost predicate Pending(s: State, ch: Channel) {
    ch in s.jobs || exists t :: t in s.at && s.at[t].HasJob() && s.at[t].ch == ch
  }

  /** A channel that is subscribed at the broker for no subscriber, or for one that may yet be refused,
      will be looked at by a job. */
  ghost predicate Watched(s: State, ch: Channel) {
    ch in s.broker && (ch !in s.subs || Starting(s, ch)) ==> Pending(s, ch)
  }

  ghost predicate Inv(s: State, lockOf: LockOf) {
    NoEmptyEntry(s.subs) && Exclusive(s, lockOf) && Locals(s) && Covered(s)
  }

  /** A subscription to ch is refused although it took effect, and no job is pending for ch. */
  ghost predicate Leaks(s: State, a: Action, ch: Channel) {
    a.SubscribeReturns? && !a.ok && a.landed && a.t in s.at && s.at[a.t].ch == ch && !Pending(s, ch)
  }

  lemma StepExclusive(s: State, lockOf: LockOf, a: Action)
    requires Inv(s, lockOf) && Enabled(s, lockOf, a)
    ensures Exclusive(Step(s, lockOf, a), lockOf)
  {
    hide NoEmptyEntry, Locals, Covered, AddSub, RemoveSub;
  }

  lemma StepNoEmptyEntry(s: State, lockOf: LockOf, a: Action)
    requires Inv(s, lockOf) && Enabled(s, lockOf, a)
    ensures NoEmptyEntry(Step(s, lockOf, a).subs)
  {
    hide Exclusive, Locals, Covered;
  }

  /** A goroutine that was first has the channel to itself. */
  lemma StepFirst(s: State, lockOf: LockOf, a: Action, t: Id)
    requires Inv(s, lockOf) && Enabled(s, lockOf, a)
    requires t in Step(s, lockOf, a).at && Step(s, lockOf, a).at[t].First()
    ensures var s' := Step(s, lockOf, a); s'.at[t].ch in s'.subs && s'.subs[s'.at[t].ch] == {s'.at[t].c}
  {
    hide Covered, NoEmptyEntry;
    if t in s.at {
      assert a.UndoAdd? ==> t != a.t && s.at[t].ch != s.at[a.t].ch;
    }
  }

  lemma StepLocals(s: State, lockOf: LockOf, a: Action)
    requires Inv(s, lockOf) && Enabled(s, lockOf, a)
    ensures Locals(Step(s, lockOf, a))
  {
    var s' := Step(s, lockOf, a);
    forall t | t in s'.at && s'.at[t].First()
      ensures s'.at[t].ch in s'.subs && s'.subs[s'.at[t].ch] == {s'.at[t].c}
    {
      StepFirst(s, lockOf, a, t);
    }
    hide Covered, NoEmptyEntry, Exclusive;
  }

  /** Whoever was subscribing the node to ch still is, unless it is the one that moves. */
  lemma StartingStays(s: State, lockOf: LockOf, a: Action, ch: Channel)
    requires Inv(s, lockOf) && Enabled(s, lockOf, a) && Starting(s, ch)
    requires a.SubscribeReturns? || a.UndoAdd? ==> s.at[a.t].ch != ch
    ensures Starting(Step(s, lockOf, a), ch)
  {
    hide NoEmptyEntry, Locals, Covered, Exclusive;
    var t :| t in s.at && s.at[t].First() && s.at[t].ch == ch;
    var s' := Step(s, lockOf, a);
    assert t in s'.at && s'.at[t].First() && s'.at[t].ch == ch;
  }

  lemma StepCovered(s: State, lockOf: LockOf, a: Action)
    requires Inv(s, lockOf) && Enabled(s, lockOf, a)
    ensures Covered(Step(s, lockOf, a))
  {
    var s' := Step(s, lockOf, a);
    forall ch | ch in s'.subs && ch !in s'.broker
      ensures Starting(s', ch)
    {
      if ch !in s.subs {
        assert a.BeginAdd? && a.ch == ch;
        assert a.t in s'.at && s'.at[a.t].First() && s'.at[a.t].ch == ch;
      } else if a.SubscribeReturns? && s.at[a.t].ch == ch {
        assert a.t in s'.at && s'.at[a.t].First() && s'.at[a.t].ch == ch;
      } else {
        assert !(a.UndoAdd? && s.at[a.t].ch == ch);
        assert ch !in s.broker;
        StartingStays(s, lockOf, a, ch);
      }
    }
  }

  lemma StepKeepsInv(s: State, lockOf: LockOf, a: Action)
    requires Inv(s, lockOf) && Enabled(s, lockOf, a)
    ensures Inv(Step(s, lockOf, a), lockOf)
  {
    hide NoEmptyEntry, Exclusive, Locals, Covered, Step, Enabled;
    StepNoEmptyEntry(s, lockOf, a);
    StepExclusive(s, lockOf, a);
    StepLocals(s, lockOf, a);
    StepCovered(s, lockOf, a);
  }

  /** A job that is pending stays so until it has unsubscribed the node or seen a subscriber. */
  lemma PendingStays(s: State, lockOf: LockOf, a: Action, ch: Channel)
    requires Inv(s, lockOf) && Enabled(s, lockOf, a) && Pending(s, ch)
    requires !Step(s, lockOf, a).closed
    ensures var s' := Step(s, lockOf, a);
            || Pending(s', ch)
            || (a.UnsubscribeReturns? && a.ok && s.at[a.t].ch == ch)
            || (a.LockJob? && s.at[a.t].ch == ch && ch in s.subs && !Starting(s, ch))
  {
    hide NoEmptyEntry, Locals, Covered, AddSub, RemoveSub;
    var s' := Step(s, lockOf, a);
    if ch in s.jobs {
      if a.TakeJob? && ch !in s'.jobs {
        assert s.jobs == [s.jobs[0]] + s.jobs[1..];
        assert a.t in s'.at && s'.at[a.t].HasJob() && s'.at[a.t].ch == ch;
      }
    } else {
      var t :| t in s.at && s.at[t].HasJob() && s.at[t].ch == ch;
      if t in s'.at && s'.at[t].HasJob() {
        assert s'.at[t].ch == ch;
      } else if a.Submit? || a.Resubmit? {
        assert s'.jobs[|s'.jobs| - 1] == ch;
      }
    }
  }

  /** While the dissolver is open, a channel stays watched with every step but a leak. */
  lemma StepWatchedIff(s: State, lockOf: LockOf, a: Action, ch: Channel)
    requires Inv(s, lockOf) && Watched(s, ch) && Enabled(s, lockOf, a)
    requires !Step(s, lockOf, a).closed
    ensures Watched(Step(s, lockOf, a), ch) <==> !Leaks(s, a, ch)
  {
    var s' := Step(s, lockOf, a);
    if Leaks(s, a, ch) {
      LeakUnwatches(s, lockOf, a, ch);
    } else if ch in s'.broker && (ch !in s'.subs || Starting(s', ch)) {
      WatchedBefore(s, lockOf, a, ch);
      if Pending(s, ch) {
        PendingStays(s, lockOf, a, ch);
      }
    }
  }

  lemma LeakUnwatches(s: State, lockOf: LockOf, a: Action, ch: Channel)
    requires Enabled(s, lockOf, a) && Leaks(s, a, ch)
    ensures !Watched(Step(s, lockOf, a), ch)
  {
    var s' := Step(s, lockOf, a);
    assert a.t in s'.at && s'.at[a.t].First() && s'.at[a.t].ch == ch;
    assert forall u :: u in s'.at && u != a.t ==> u in s.at && s'.at[u] == s.at[u];
  }

  /** A subscription that succeeds makes up for an earlier leak. */
  lemma SubscribedIsWatched(s: State, lockOf: LockOf, a: Action)
    requires Inv(s, lockOf) && Enabled(s, lockOf, a) && a.SubscribeReturns? && a.ok
    ensures Watched(Step(s, lockOf, a), s.at[a.t].ch)
  {
    OnlyOneStarts(s, lockOf, a.t, s.at[a.t].ch);
  }

  /** A channel that loses its last subscriber gets a job, except when a refused first one is undone. */
  lemma LastOneLeaves(s: State, lockOf: LockOf, a: Action, ch: Channel)
    requires Enabled(s, lockOf, a) && ch in s.subs && ch !in Step(s, lockOf, a).subs
    ensures (a.UndoAdd? && s.at[a.t].ch == ch && Starting(s, ch)) || Pending(Step(s, lockOf, a), ch)
  {
    var s' := Step(s, lockOf, a);
    if a.BeginRemove? {
      assert a.t in s'.at && s'.at[a.t].HasJob() && s'.at[a.t].ch == ch;
    } else {
      assert a.t in s.at && s.at[a.t].First() && s.at[a.t].ch == ch;
    }
  }

  /** Who starts to subscribe the node finds no subscriber. */
  lemma StartingBefore(s: State, lockOf: LockOf, a: Action, ch: Channel)
    requires Enabled(s, lockOf, a) && Starting(Step(s, lockOf, a), ch)
    ensures Starting(s, ch) || ch !in s.subs
  {
    var s' := Step(s, lockOf, a);
    var t :| t in s'.at && s'.at[t].First() && s'.at[t].ch == ch;
    if t in s.at {
      assert s.at[t].First() && s.at[t].ch == ch;
    }
  }

  /** A channel that is watched after a step was watched before it, or a job is pending anyway. */
  lemma WatchedBefore(s: State, lockOf: LockOf, a: Action, ch: Channel)
    requires Inv(s, lockOf) && Watched(s, ch) && Enabled(s, lockOf, a) && !Leaks(s, a, ch)
    requires var s' := Step(s, lockOf, a); ch in s'.broker && (ch !in s'.subs || Starting(s', ch))
    ensures Pending(s, ch) || Pending(Step(s, lockOf, a), ch)
  {
    hide Inv, Pending, AddSub, RemoveSub;
    var s' := Step(s, lockOf, a);
    if ch !in s.broker {
      NewAtBroker(s, lockOf, a, ch);
    } else if Starting(s', ch) {
      StartingBefore(s, lockOf, a, ch);
    } else if ch in s.subs {
      LastOneLeaves(s, lockOf, a, ch);
    }
  }

  /** A channel that comes to the broker has a subscriber, or was refused without a leak. */
  lemma NewAtBroker(s: State, lockOf: LockOf, a: Action, ch: Channel)
    requires Inv(s, lockOf) && Enabled(s, lockOf, a) && !Leaks(s, a, ch)
    requires ch !in s.broker && ch in Step(s, lockOf, a).broker
    ensures Pending(s, ch) || (ch in Step(s, lockOf, a).subs && !Starting(Step(s, lockOf, a), ch))
  {
    hide Exclusive, NoEmptyEntry, Covered, Pending, AddSub, RemoveSub, Starting;
    assert a.SubscribeReturns? && s.at[a.t].ch == ch && s.at[a.t].First();
    if a.ok {
      OnlyOneStarts(s, lockOf, a.t, ch);
      NoMoreStarts(s, Step(s, lockOf, a), a.t, ch);
    }
  }

  lemma NoMoreStarts(s: State, s': State, t: Id, ch: Channel)
    requires s'.at == s.at - {t} && !Starting(Leave(s, t), ch)
    ensures !Starting(s', ch)
  {
  }

  /** At most one goroutine subscribes the node to a channel. */
  lemma OnlyOneStarts(s: State, lockOf: LockOf, t: Id, ch: Channel)
    requires Exclusive(s, lockOf) && t in s.at && s.at[t].First() && s.at[t].ch == ch
    ensures !Starting(Leave(s, t), ch)
  {
  }

  // ----- Runs -----

  datatype Outcome = Stuck | Reached(s: State)

  /** Where a sequence of steps leads, if each of them is possible in its turn. */
  function Run(lockOf: LockOf, run: seq<Action>): Outcome {
    if run == [] then Reached(Initial)
    else
      match Run(lockOf, run[..|run| - 1])
      case Stuck => Stuck
      case Reached(s) => if Enabled(s, lockOf, run[|run| - 1]) then Reached(Step(s, lockOf, run[|run| - 1])) else Stuck
  }

  lemma {:induction false} RunKeepsInv(lockOf: LockOf, run: seq<Action>)
    requires Run(lockOf, run).Reached?
    ensures Inv(Run(lockOf, run).s, lockOf)
    decreases |run|
  {
    hide Inv;
    if run != [] {
      RunKeepsInv(lockOf, run[..|run| - 1]);
      StepKeepsInv(Run(lockOf, run[..|run| - 1]).s, lockOf, run[|run| - 1]);
    } else {
      InitialInv(lockOf);
    }
  }

  lemma InitialInv(lockOf: LockOf)
    ensures Inv(Initial, lockOf)
  {
  }

  /** None of the steps from i on is a leak of ch. */
  ghost predicate Leakless(lockOf: LockOf, run: seq<Action>, i: nat, ch: Channel) {
    forall k :: i <= k < |run| && Run(lockOf, run[..k]).Reached? ==> !Leaks(Run(lockOf, run[..k]).s, run[k], ch)
  }

  lemma StaysClosed(s: State, lockOf: LockOf, a: Action)
    requires Enabled(s, lockOf, a) && s.closed
    ensures Step(s, lockOf, a).closed
  {
  }

  lemma LeaklessFront(lockOf: LockOf, run: seq<Action>, i: nat, ch: Channel)
    requires run != [] && Leakless(lockOf, run, i, ch)
    ensures Leakless(lockOf, run[..|run| - 1], i, ch)
  {
    hide Run, Leaks;
    var front := run[..|run| - 1];
    forall k | i <= k < |front|
      ensures front[..k] == run[..k] && front[k] == run[k]
    {
    }
  }

  lemma {:induction false} RunWatched(lockOf: LockOf, run: seq<Action>, i: nat, ch: Channel)
    requires i <= |run| && Run(lockOf, run).Reached? && !Run(lockOf, run).s.closed
    requires Run(lockOf, run[..i]).Reached? && Watched(Run(lockOf, run[..i]).s, ch)
    requires Leakless(lockOf, run, i, ch)
    ensures Watched(Run(lockOf, run).s, ch)
    decreases |run|
  {
    hide Inv, Watched, Leaks, Step, Enabled;
    var n := |run| - 1;
    if i == |run| {
      assert run[..i] == run;
    } else {
      var front := run[..n];
      assert front[..i] == run[..i];
      LeaklessFront(lockOf, run, i, ch);
      RunKeepsInv(lockOf, front);
      var s := Run(lockOf, front).s;
      if s.closed {
        StaysClosed(s, lockOf, run[n]);
        assert false;
      }
      RunWatched(lockOf, front, i, ch);
      StepWatchedIff(s, lockOf, run[n], ch);
    }
  }

  /** In every interleaving, whatever the broker answers, a channel with a subscriber is subscribed at
      the broker, unless the goroutine that is subscribing it is still in the channel's lock. */
  lemma SubscribersAreServed(lockOf: LockOf, run: seq<Action>, ch: Channel)
    requires Run(lockOf, run).Reached?
    ensures var s := Run(lockOf, run).s;
            && (ch in s.subs ==> s.subs[ch] != {} && (ch in s.broker || Starting(s, ch)))
            && (ch in s.subs && Free(s, lockOf, ch) ==> ch in s.broker)
  {
    RunKeepsInv(lockOf, run);
  }

  /** While the dissolver is open, a channel that is subscribed at the broker without a subscriber has a
      job coming for it, whatever happened to other channels and whichever calls failed, unless a
      subscription to this channel has leaked since it was last watched, at the latest at the start. */
  lemma AbandonedAreWatched(lockOf: LockOf, run: seq<Action>, i: nat, ch: Channel)
    requires i <= |run| && Run(lockOf, run).Reached? && !Run(lockOf, run).s.closed
    requires i > 0 ==> Run(lockOf, run[..i]).Reached? && Watched(Run(lockOf, run[..i]).s, ch)
    requires Leakless(lockOf, run, i, ch)
    ensures var s := Run(lockOf, run).s;
            ch in s.broker && ch !in s.subs ==> Pending(s, ch)
  {
    assert i == 0 ==> run[..i] == [] && Watched(Initial, ch);
    RunWatched(lockOf, run, i, ch);
  }

  /** What a refusal costs. A first subscriber is refused and undone: the channel is then subscribed at
      the broker with no job coming for it exactly when the refused call had taken effect, or an earlier
      one had, and no job was pending already. */
  lemma RefusalLeaksIff(lockOf: LockOf, s: State, t: Id, landed: bool)
    requires Inv(s, lockOf) && t in s.at && s.at[t].Subscribing?
    ensures var ch := s.at[t].ch;
            var s1 := Step(s, lockOf, SubscribeReturns(t, false, landed));
            var s2 := Step(s1, lockOf, UndoAdd(t));
            && ch !in s2.subs
            && (ch in s2.broker && !Pending(s2, ch) <==> (landed || ch in s.broker) && !Pending(s, ch))
            && (Watched(s, ch) ==> (ch in s2.broker && !Pending(s2, ch) <==> landed && !Pending(s, ch)))
  {
    var ch := s.at[t].ch;
    var s1 := Step(s, lockOf, SubscribeReturns(t, false, landed));
    var s2 := Step(s1, lockOf, UndoAdd(t));
    assert Starting(s, ch);
    assert forall u :: u in s2.at <==> u in s.at && u != t;
    assert forall u :: u in s2.at ==> s2.at[u] == s.at[u];
    assert Pending(s2, ch) <==> Pending(s, ch);
  }

  /** Such a run: one client, one refusal that took effect. */
  lemma RefusalLeaks(lockOf: LockOf)
    ensures var r := Run(lockOf, [BeginAdd(0, "news", "c"), SubscribeReturns(0, false, true), UndoAdd(0)]);
            r.Reached? && "news" in r.s.broker && "news" !in r.s.subs && !Pending(r.s, "news")
  {
    var a0, a1, a2 := BeginAdd(0, "news", "c"), SubscribeReturns(0, false, true), UndoAdd(0);
    var run := [a0, a1, a2];
    assert run[..2] == [a0, a1] && run[..2][..1] == [a0] && run[..1][..0] == [];
    assert Run(lockOf, []) == Reached(Initial);
    var s0 := Step(Initial, lockOf, a0);
    assert Run(lockOf, [a0]) == Reached(s0);
    var s1 := Step(s0, lockOf, a1);
    assert Run(lockOf, [a0, a1]) == Reached(s1);
    var s2 := Step(s1, lockOf, a2);
    assert Run(lockOf, run) == Reached(s2);
  }

  function Subscribers(subs: Subs, ch: Channel): set<Client> {
    if ch in subs then subs[ch] else {}
  }

  /** removeSub takes out the one subscriber and touches no other channel. It answers "empty" for a
      channel that still has subscribers exactly when the client was not one of them; the job this
      causes finds the channel in use and leaves it alone. */
  lemma EmptyAnswer(subs: Subs, ch: Channel, c: Client)
    requires NoEmptyEntry(subs)
    ensures var (subs', empty) := RemoveSub(subs, ch, c);
            && NoEmptyEntry(subs')
            && Subscribers(subs', ch) == Subscribers(subs, ch) - {c}
            && (forall d :: d != ch ==> Subscribers(subs', d) == Subscribers(subs, d))
            && (empty && Subscribers(subs', ch) != {} <==> ch in subs && c !in subs[ch])
            && (!empty ==> Subscribers(subs', ch) != {})
  {
  }
}
