/** What one call on a pump comes to, from its start to its return. */
module PumpCalls {
  import opened Common
  import opened Pump

  /** A step of thread `t` that no other thread has a part in: a hand-off needs a waiting consumer. */
  predicate Own(e: Event, t: nat)
  {
    match e
    case RLock(u) => u == t
    case SeeStop(u) => u == t
    case SeeCancel(u) => u == t
    case PassCheck(u) => u == t
    case Push(u, handOff) => u == t && !handOff
    case FindFull(u) => u == t
    case Drain(u) => u == t
    case FindEmpty(u) => u == t
    case RUnlock(u) => u == t
    case _ => false
  }

  predicate AllOwn(events: seq<Event>, t: nat)
  {
    forall i :: 0 <= i < |events| ==> Own(events[i], t)
  }

  predicate Returned(s: State, t: nat)
  {
    t in s.threads && s.threads[t].Sent?
  }

  /** Nothing but the channel, the counts and the caller's own place changed. */
  predicate SameRest(before: State, s: State)
  {
    s.capacity == before.capacity && s.stop == before.stop && s.cancelled == before.cancelled && s.closed == before.closed && s.err == before.err
  }

  // ---------------------------------------------------------------- a drop-oldest send that nobody interrupts

  /** Where such a call is, against the state it began in. */
  ghost predicate TryingAlone(before: State, s: State, t: nat)
  {
    && t in s.threads && SameRest(before, s)
    && var same := s.buffer == before.buffer && s.accepted == before.accepted && s.drops == before.drops && s.losses == before.losses;
       match s.threads[t]
       case TryStart => same
       case TryCheck => same
       case TryFirst => same && !before.stop
       case TryDrain => same && !before.stop && |before.buffer| >= before.capacity
       case TryRetry(drained) =>
         && (drained <==> before.buffer != []) && !before.stop && |before.buffer| >= before.capacity
         && s.buffer == (if drained then before.buffer[1..] else []) && s.accepted == before.accepted
         && s.drops == before.drops + (if drained then 1 else 0) && s.losses == before.losses
       case Leave(delivered, dropped) => Outcome(before, s, t, delivered, dropped)
       case Sent(delivered, dropped) => Outcome(before, s, t, delivered, dropped)
       case _ => false
  }

  /** What it did: nothing when the pump was stopped; appended its value when there was room; otherwise took
      exactly the oldest value out and appended its own, or lost it on a pump without a buffer. */
  ghost predicate Outcome(before: State, s: State, t: nat, delivered: bool, dropped: nat)
  {
    if before.stop then !delivered && dropped == 0 && s.buffer == before.buffer && s.drops == before.drops && s.losses == before.losses
    else if |before.buffer| < before.capacity then
      delivered && dropped == 0 && s.buffer == before.buffer + [t] && s.drops == before.drops && s.losses == before.losses
    else if before.capacity == 0 then
      !delivered && dropped == 1 && s.buffer == [] && s.drops == before.drops && s.losses == before.losses + 1
    else
      && before.buffer != [] && delivered && dropped == 1
      && s.buffer == before.buffer[1..] + [t] && s.drops == before.drops + 1 && s.losses == before.losses
  }

  lemma AloneStep(before: State, s: State, t: nat, e: Event)
    requires TryingAlone(before, s, t) && Own(e, t) && Enabled(s, e) && |before.buffer| <= before.capacity
    ensures TryingAlone(before, Apply(s, e), t)
  {
  }

  lemma {:induction false} AlonePath(before: State, s: State, t: nat, events: seq<Event>, after: State)
    requires TryingAlone(before, s, t) && AllOwn(events, t) && Path(s, events, after)
    requires |before.buffer| <= before.capacity
    ensures TryingAlone(before, after, t)
    decreases |events|
  {
    hide Apply, Enabled, TryingAlone, Own;
    if events != [] {
      AloneStep(before, s, t, events[0]);
      AlonePath(before, Apply(s, events[0]), t, events[1..], after);
    }
  }

  /** A drop-oldest call that nobody interrupts, from its start to its return: on a full buffer it delivers its
      value, removes exactly the oldest and reports one drop; with room it delivers and reports none; on a
      stopped pump it does nothing; without a buffer, and with nobody receiving, it loses its value. */
  lemma TrySendAlone(s: State, t: nat, events: seq<Event>, after: State)
    requires Reachable(s) && At(s, t, TryStart)
    requires AllOwn(events, t) && Path(s, events, after) && Returned(after, t)
    ensures var (delivered, dropped) := (after.threads[t].delivered, after.threads[t].dropped);
      if s.stop then !delivered && dropped == 0 && after.buffer == s.buffer
      else if |s.buffer| < s.capacity then delivered && dropped == 0 && after.buffer == s.buffer + [t]
      else if s.capacity == 0 then !delivered && dropped == 1 && after.buffer == s.buffer && after.losses == s.losses + 1
      else delivered && dropped == 1 && s.buffer != [] && after.buffer == s.buffer[1..] + [t] && after.drops == s.drops + 1
  {
    ReachableInv(s);
    AlonePath(s, s, t, events, after);
  }

  /** And it does return: with the lock free, on a pump that is not stopped, six steps of its own at most. */
  lemma TrySendReturns(s: State, t: nat) returns (events: seq<Event>, after: State)
    requires Reachable(s) && s.capacity > 0 && At(s, t, TryStart) && s.writer == None && !s.stop
    ensures AllOwn(events, t) && Path(s, events, after) && Returned(after, t) && |events| <= 6
  {
    var s2 := TryBegins(s, t);
    if |s.buffer| < s.capacity {
      events, after := PushAndLeave(s2, t);
    } else {
      AtMostFull(s, t);
      var s4 := OldestGoes(s2, t);
      events, after := PushAndLeave(s4, t);
      hide Apply, Enabled;
      PathCons(Apply(s2, FindFull(t)), Drain(t), events, after);
      PathCons(s2, FindFull(t), [Drain(t)] + events, after);
      events := [FindFull(t)] + ([Drain(t)] + events);
    }
    hide Apply, Enabled;
    PathCons(Apply(s, RLock(t)), PassCheck(t), events, after);
    PathCons(s, RLock(t), [PassCheck(t)] + events, after);
    events := [RLock(t)] + ([PassCheck(t)] + events);
  }

  lemma AtMostFull(s: State, t: nat)
    requires Reachable(s) && t in s.threads
    ensures |s.buffer| <= s.capacity
  {
    ValuesConserved(s, t);
  }

  lemma TryBegins(s: State, t: nat) returns (s2: State)
    requires At(s, t, TryStart) && s.writer == None && !s.stop
    ensures Enabled(s, RLock(t)) && Enabled(Apply(s, RLock(t)), PassCheck(t)) && s2 == Apply(Apply(s, RLock(t)), PassCheck(t))
    ensures At(s2, t, TryFirst) && s2.buffer == s.buffer && s2.capacity == s.capacity
  {
    s2 := Apply(Apply(s, RLock(t)), PassCheck(t));
  }

  lemma OldestGoes(s: State, t: nat) returns (s': State)
    requires At(s, t, TryFirst) && |s.buffer| == s.capacity > 0
    ensures Enabled(s, FindFull(t)) && Enabled(Apply(s, FindFull(t)), Drain(t)) && s' == Apply(Apply(s, FindFull(t)), Drain(t))
    ensures At(s', t, TryRetry(true)) && s'.buffer == s.buffer[1..] && s'.capacity == s.capacity
  {
    s' := Apply(Apply(s, FindFull(t)), Drain(t));
  }

  lemma PushAndLeave(s: State, t: nat) returns (events: seq<Event>, after: State)
    requires t in s.threads && (s.threads[t].SendSelect? || IsTry(s.threads[t])) && |s.buffer| < s.capacity
    ensures events == [Push(t, false), RUnlock(t)] && Path(s, events, after) && Returned(after, t)
  {
    var s1 := Apply(s, Push(t, false));
    after := Apply(s1, RUnlock(t));
    events := [Push(t, false), RUnlock(t)];
    assert events[1..] == [RUnlock(t)] && [RUnlock(t)][1..] == [];
  }

  lemma PathCons(s: State, e: Event, events: seq<Event>, after: State)
    requires Enabled(s, e) && Path(Apply(s, e), events, after)
    ensures Path(s, [e] + events, after)
  {
    hide Apply, Enabled;
    assert ([e] + events)[1..] == events;
  }

  // ---------------------------------------------------------------- a blocking send that nobody interrupts

  ghost predicate SendingAlone(before: State, s: State, t: nat)
  {
    && t in s.threads && s.capacity == before.capacity
    && match s.threads[t]
       case SendStart => SameRest(before, s) && s.buffer == before.buffer
       case SendCheck => SameRest(before, s) && s.buffer == before.buffer
       case SendSelect => SameRest(before, s) && s.buffer == before.buffer && !before.stop && !before.cancelled
       case Leave(delivered, dropped) => SendOutcome(before, s, t, delivered, dropped)
       case Sent(delivered, dropped) => SendOutcome(before, s, t, delivered, dropped)
       case _ => false
  }

  ghost predicate SendOutcome(before: State, s: State, t: nat, delivered: bool, dropped: nat)
  {
    && dropped == 0
    && if before.stop || before.cancelled then !delivered && s.buffer == before.buffer && s.stop
       else delivered && |before.buffer| < before.capacity && s.buffer == before.buffer + [t] && !s.stop
  }

  lemma SendStep(before: State, s: State, t: nat, e: Event)
    requires SendingAlone(before, s, t) && Own(e, t) && Enabled(s, e)
    ensures SendingAlone(before, Apply(s, e), t)
  {
  }

  lemma {:induction false} SendPath(before: State, s: State, t: nat, events: seq<Event>, after: State)
    requires SendingAlone(before, s, t) && AllOwn(events, t) && Path(s, events, after)
    ensures SendingAlone(before, after, t)
    decreases |events|
  {
    hide Apply, Enabled, SendingAlone, Own;
    if events != [] {
      SendStep(before, s, t, events[0]);
      SendPath(before, Apply(s, events[0]), t, events[1..], after);
    }
  }

  /** A blocking send that nobody interrupts: on a pump that is stopped or cancelled it delivers nothing and
      leaves the pump stopped; otherwise it returns only by delivering, into room that was there. */
  lemma SendAlone(s: State, t: nat, events: seq<Event>, after: State)
    requires At(s, t, SendStart) && AllOwn(events, t) && Path(s, events, after) && Returned(after, t)
    ensures var delivered := after.threads[t].delivered;
      && after.threads[t].dropped == 0
      && (delivered <==> !s.stop && !s.cancelled)
      && (delivered ==> |s.buffer| < s.capacity && after.buffer == s.buffer + [t])
      && (!delivered ==> after.buffer == s.buffer && after.stop)
  {
    SendPath(s, s, t, events, after);
  }

  lemma SendReturns(s: State, t: nat) returns (events: seq<Event>, after: State)
    requires At(s, t, SendStart) && s.writer == None && !s.stop && !s.cancelled && |s.buffer| < s.capacity
    ensures AllOwn(events, t) && Path(s, events, after) && Returned(after, t) && |events| <= 4
  {
    var s1 := Apply(s, RLock(t));
    var s2 := Apply(s1, PassCheck(t));
    events, after := PushAndLeave(s2, t);
    PathCons(s1, PassCheck(t), events, after);
    PathCons(s, RLock(t), [PassCheck(t)] + events, after);
    events := [RLock(t)] + ([PassCheck(t)] + events);
  }

  /** A new pump is neither stopped nor cancelled, so both kinds of call deliver on it. */
  lemma NewPumpDelivers(capacity: nat, t: nat) returns (s: State, u: State)
    requires capacity > 0
    ensures Reachable(s) && At(s, t, SendStart) && Reachable(u) && At(u, t, TryStart)
    ensures forall x :: x in {s, u} ==> x.writer == None && !x.stop && !x.cancelled && x.buffer == [] && x.capacity == capacity
  {
    s, u := Apply(Init(capacity), CallSend(t)), Apply(Init(capacity), CallTrySend(t));
    assert Path(s, [], s) && Path(u, [], u);
    PathCons(Init(capacity), CallSend(t), [], s);
    PathCons(Init(capacity), CallTrySend(t), [], u);
    assert Path(Init(capacity), [CallSend(t)] + [], s) && Path(Init(capacity), [CallTrySend(t)] + [], u);
  }

  // ---------------------------------------------------------------- what a return value means, in every interleaving

  /** The step at which a call's return value is decided: it reports false with drops only when it found the
      buffer full after draining, two if it had drained a value itself; false without drops only when it saw
      the pump stopped or cancelled; and true only when its value went in, with a drop if it had drained one.
      The caller is told exactly what is counted. */
  lemma ReturnMeans(s: State, e: Event, t: nat)
    requires Enabled(s, e) && t in s.threads && !s.threads[t].Leave?
    requires t in Apply(s, e).threads && Apply(s, e).threads[t].Leave?
    ensures var (s', p) := (Apply(s, e), s.threads[t]);
      var (delivered, dropped) := (s'.threads[t].delivered, s'.threads[t].dropped);
      && (delivered ==> s'.accepted == s.accepted + [t] && dropped == if p == TryRetry(true) then 1 else 0)
      && (!delivered && dropped > 0 ==> p.TryRetry? && |s.buffer| >= s.capacity && s'.buffer == s.buffer && dropped == if p.drained then 2 else 1)
      && (!delivered && dropped == 0 ==> (s.stop || s.cancelled) && s'.stop && s'.buffer == s.buffer)
      && s'.reported == s.reported + dropped
  {
  }

  /** A call returns what was decided, and nothing else touches it. */
  lemma ReturnIsKept(s: State, e: Event, t: nat)
    requires Enabled(s, e) && t in s.threads && (s.threads[t].Leave? || s.threads[t].Sent?)
    ensures var (p, p') := (s.threads[t], Apply(s, e).threads[t]);
      (p'.Leave? || p'.Sent?) && p'.delivered == p.delivered && p'.dropped == p.dropped
  {
    if IsCall(e) || e.t != t { OthersLeaveIt(s, e, t); } else { OnlyUnlocks(s, e, t); }
    hide Apply, Enabled;
  }

  lemma OthersLeaveIt(s: State, e: Event, t: nat)
    requires Enabled(s, e) && t in s.threads && (IsCall(e) || e.t != t)
    ensures Apply(s, e).threads[t] == s.threads[t]
  {
    if IsCall(e) { CallsLeaveIt(s, e, t); } else { MoversLeaveIt(s, e, t); }
    hide Apply, Enabled;
  }

  lemma CallsLeaveIt(s: State, e: Event, t: nat)
    requires Enabled(s, e) && t in s.threads && IsCall(e)
    ensures Apply(s, e).threads[t] == s.threads[t]
  {
  }

  lemma MoversLeaveIt(s: State, e: Event, t: nat)
    requires Enabled(s, e) && t in s.threads && !IsCall(e) && e.t != t
    ensures Apply(s, e).threads[t] == s.threads[t]
  {
  }

  lemma OnlyUnlocks(s: State, e: Event, t: nat)
    requires Enabled(s, e) && t in s.threads && (s.threads[t].Leave? || s.threads[t].Sent?) && !IsCall(e) && e.t == t
    ensures e == RUnlock(t) && Apply(s, e).threads[t] == Sent(s.threads[t].delivered, s.threads[t].dropped)
  {
  }

  /** A retry has drained a value exactly when it took the oldest one out. */
  lemma DrainTakesOldest(s: State, e: Event, t: nat)
    requires Enabled(s, e) && t in s.threads && !s.threads[t].TryRetry?
    requires t in Apply(s, e).threads && Apply(s, e).threads[t].TryRetry?
    ensures s.threads[t] == TryDrain && (e == Drain(t) || e == FindEmpty(t))
    ensures Apply(s, e).threads[t].drained <==> e == Drain(t)
    ensures e == Drain(t) ==> s.buffer != [] && Apply(s, e).buffer == s.buffer[1..] && Apply(s, e).removed == s.removed + [s.buffer[0]]
    ensures e == FindEmpty(t) ==> s.buffer == [] && Apply(s, e).buffer == []
  {
    RetryBegins(s, e, t);
  }

  lemma RetryBegins(s: State, e: Event, t: nat)
    requires Enabled(s, e) && t in s.threads && !s.threads[t].TryRetry?
    requires t in Apply(s, e).threads && Apply(s, e).threads[t].TryRetry?
    ensures e == Drain(t) || e == FindEmpty(t)
  {
  }

  // ---------------------------------------------------------------- closing

  /** A closer that finds nobody in its way signals stop and closes the channel, and leaves the locks free. */
  lemma CloseReturns(s: State, t: nat) returns (events: seq<Event>, after: State)
    requires At(s, t, SignalStart) && s.readers == {} && s.writer == None && s.once == None
    ensures events == [Signal(t), WinOnce(t), Lock(t), CloseChannel(t), Unlock(t)] && Path(s, events, after)
    ensures At(after, t, Closed) && after.stop && after.closed && after.writer == None
    ensures after.buffer == s.buffer && after.err == s.err
  {
    hide Apply, Enabled;
    var s2 := SignalsAndWins(s, t);
    var s4 := LocksAndCloses(s2, t);
    after := Unlocks(s4, t);
    events := [Unlock(t)];
    PathCons(Apply(s2, Lock(t)), CloseChannel(t), events, after);
    events := [CloseChannel(t)] + events;
    PathCons(s2, Lock(t), events, after);
    events := [Lock(t)] + events;
    PathCons(Apply(s, Signal(t)), WinOnce(t), events, after);
    events := [WinOnce(t)] + events;
    PathCons(s, Signal(t), events, after);
    events := [Signal(t)] + events;
  }

  lemma Unlocks(s: State, t: nat) returns (after: State)
    requires At(s, t, Unlocking)
    ensures Path(s, [Unlock(t)], after) && At(after, t, Closed) && after.writer == None
    ensures after.stop == s.stop && after.closed == s.closed && after.buffer == s.buffer && after.err == s.err
  {
    after := Apply(s, Unlock(t));
    assert [Unlock(t)][1..] == [];
  }

  lemma SignalsAndWins(s: State, t: nat) returns (s2: State)
    requires At(s, t, SignalStart) && s.readers == {} && s.writer == None && s.once == None
    ensures Enabled(s, Signal(t)) && Enabled(Apply(s, Signal(t)), WinOnce(t)) && s2 == Apply(Apply(s, Signal(t)), WinOnce(t))
    ensures At(s2, t, LockStart) && s2.stop && s2.readers == {} && s2.writer == None && s2.buffer == s.buffer && s2.err == s.err
  {
    s2 := Apply(Apply(s, Signal(t)), WinOnce(t));
  }

  lemma LocksAndCloses(s: State, t: nat) returns (s2: State)
    requires At(s, t, LockStart) && s.readers == {} && s.writer == None
    ensures Enabled(s, Lock(t)) && Enabled(Apply(s, Lock(t)), CloseChannel(t)) && s2 == Apply(Apply(s, Lock(t)), CloseChannel(t))
    ensures At(s2, t, Unlocking) && s2.closed && s2.stop == s.stop && s2.buffer == s.buffer && s2.err == s.err
  {
    s2 := Apply(Apply(s, Lock(t)), CloseChannel(t));
  }

  /** A Fail first records its error, unless one is there, and then closes like any closer. */
  lemma FailRecords(s: State, t: nat)
    requires t in s.threads && s.threads[t].FailStart?
    ensures Enabled(s, Record(t)) && At(Apply(s, Record(t)), t, SignalStart)
    ensures Apply(s, Record(t)).err == (if s.err.Some? then s.err else s.threads[t].error)
    ensures Apply(s, Record(t)).stop == s.stop && Apply(s, Record(t)).buffer == s.buffer
  {
  }

  /** Signalling stop, cancelling and closing are always possible and do what they say. */
  lemma StopStops(s: State)
    ensures Enabled(s, SignalStop) && Apply(s, SignalStop) == s.(stop := true)
    ensures Enabled(s, Cancel) && Apply(s, Cancel) == s.(cancelled := true)
    ensures s.buffer != [] ==> Enabled(s, Receive) && Apply(s, Receive).buffer == s.buffer[1..]
  {
  }
}
