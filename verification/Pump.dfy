/** One pump: senders, closers and consumers of a channel, interleaved at every lock and channel
    operation.

    A send holds the read lock from before it looks at the stop signal until it has left the
    channel; closing takes the write lock.  A thread is one call, and its number stands for the
    value it sends. */
module Pump {
  import opened Common

  type Error = string

  /** Where one call is.  The phases from `SendCheck` to `TryLeave` hold the read lock, `Closing`
      holds the write lock. */
  datatype Phase =
    | SendStart | SendCheck | SendSelect
    | TryStart | TryCheck | TryFirst | TryDrain | TryRetry(drained: bool)
    | Leave(delivered: bool, dropped: nat)
    | Sent(delivered: bool, dropped: nat)
    | FailStart(error: Option<Error>) | SignalStart | OnceStart | LockStart | Closing | Unlocking | Closed

  datatype State = State(
    capacity: nat,
    threads: map<nat, Phase>,
    readers: set<nat>,
    writer: Option<nat>,
    once: Option<nat>,           // the closer that closes the channel
    stop: bool,
    cancelled: bool,
    closed: bool,
    buffer: seq<nat>,
    err: Option<Error>,
    accepted: seq<nat>,          // history: values put into the channel
    removed: seq<nat>,           // history: values taken out, by consumers or to make room
    failures: seq<Error>,        // history: errors passed to Fail
    drops: nat,                  // history: values taken out to make room
    losses: nat,                 // history: values that found no room
    reported: nat)               // history: drops reported to callers

  datatype Event =
    | CallSend(t: nat) | CallTrySend(t: nat) | CallFail(t: nat, error: Option<Error>) | CallClose(t: nat)
    | RLock(t: nat) | SeeStop(t: nat) | SeeCancel(t: nat) | PassCheck(t: nat)
    | Push(t: nat, handOff: bool) | FindFull(t: nat) | Drain(t: nat) | FindEmpty(t: nat) | RUnlock(t: nat)
    | Record(t: nat) | Signal(t: nat) | WinOnce(t: nat) | WaitOnce(t: nat) | Lock(t: nat) | CloseChannel(t: nat) | Unlock(t: nat)
    | Receive | Cancel | SignalStop

  function Init(capacity: nat): State
  {
    State(capacity, map[], {}, None, None, false, false, false, [], None, [], [], [], 0, 0, 0)
  }

  predicate At(s: State, t: nat, p: Phase)
  {
    t in s.threads && s.threads[t] == p
  }

  predicate IsTry(p: Phase)
  {
    p.TryFirst? || p.TryRetry?
  }

  /** The phases in which a thread operates on the channel as a sender. */
  predicate Pushing(p: Phase)
  {
    p.SendSelect? || p.TryFirst? || p.TryDrain? || p.TryRetry?
  }

  predicate HoldsRead(p: Phase)
  {
    p.SendCheck? || p.TryCheck? || Pushing(p) || p.Leave?
  }

  predicate Enabled(s: State, e: Event)
  {
    match e
    case CallSend(t) => t !in s.threads
    case CallTrySend(t) => t !in s.threads
    case CallFail(t, _) => t !in s.threads
    case CallClose(t) => t !in s.threads
    case RLock(t) => t in s.threads && (s.threads[t].SendStart? || s.threads[t].TryStart?) && s.writer == None
    case SeeStop(t) => t in s.threads && (s.threads[t].SendCheck? || s.threads[t].SendSelect? || s.threads[t].TryCheck?) && s.stop
    case SeeCancel(t) => t in s.threads && (s.threads[t].SendCheck? || s.threads[t].SendSelect?) && s.cancelled
    case PassCheck(t) => t in s.threads && ((s.threads[t].SendCheck? && !s.cancelled) || s.threads[t].TryCheck?) && !s.stop
    case Push(t, handOff) =>
      && t in s.threads && (s.threads[t].SendSelect? || IsTry(s.threads[t]))
      && if handOff then s.buffer == [] else |s.buffer| < s.capacity
    case FindFull(t) => t in s.threads && IsTry(s.threads[t]) && |s.buffer| >= s.capacity
    case Drain(t) => At(s, t, TryDrain) && s.buffer != []
    case FindEmpty(t) => At(s, t, TryDrain) && s.buffer == []
    case RUnlock(t) => t in s.threads && s.threads[t].Leave?
    case Record(t) => t in s.threads && s.threads[t].FailStart?
    case Signal(t) => At(s, t, SignalStart)
    case WinOnce(t) => At(s, t, OnceStart) && s.once == None
    case WaitOnce(t) => At(s, t, OnceStart) && s.once.Some? && At(s, s.once.value, Closed)
    case Lock(t) => At(s, t, LockStart) && s.readers == {} && s.writer == None
    case CloseChannel(t) => At(s, t, Closing)
    case Unlock(t) => At(s, t, Unlocking)
    case Receive => s.buffer != []
    case Cancel => true
    case SignalStop => true
  }

  function To(s: State, t: nat, p: Phase): State
  {
    s.(threads := s.threads[t := p])
  }

  function Apply(s: State, e: Event): State
    requires Enabled(s, e)
  {
    match e
    case CallSend(t) => To(s, t, SendStart)
    case CallTrySend(t) => To(s, t, TryStart)
    case CallFail(t, error) => To(s, t, FailStart(error))
    case CallClose(t) => To(s, t, SignalStart)
    case RLock(t) => To(s, t, if s.threads[t].SendStart? then SendCheck else TryCheck).(readers := s.readers + {t})
    case SeeStop(t) => To(s, t, Leave(false, 0))
    case SeeCancel(t) => To(s, t, Leave(false, 0)).(stop := true)
    case PassCheck(t) => To(s, t, if s.threads[t].SendCheck? then SendSelect else TryFirst)
    case Push(t, handOff) =>
      var dropped := if s.threads[t] == TryRetry(true) then 1 else 0;
      To(s, t, Leave(true, dropped)).(accepted := s.accepted + [t],
                                      buffer := if handOff then [] else s.buffer + [t],
                                      removed := if handOff then s.removed + [t] else s.removed,
                                      reported := s.reported + dropped)
    case FindFull(t) =>
      if s.threads[t].TryFirst? then To(s, t, TryDrain)
      else
        var dropped := if s.threads[t].drained then 2 else 1;
        To(s, t, Leave(false, dropped)).(losses := s.losses + 1, reported := s.reported + dropped)
    case Drain(t) => To(s, t, TryRetry(true)).(buffer := s.buffer[1..], removed := s.removed + [s.buffer[0]], drops := s.drops + 1)
    case FindEmpty(t) => To(s, t, TryRetry(false))
    case RUnlock(t) => To(s, t, Sent(s.threads[t].delivered, s.threads[t].dropped)).(readers := s.readers - {t})
    case Record(t) =>
      var error := s.threads[t].error;
      To(s, t, SignalStart).(err := if s.err == None && error != None then error else s.err,
                             failures := if error.Some? then s.failures + [error.value] else s.failures)
    case Signal(t) => To(s, t, OnceStart).(stop := true)
    case WinOnce(t) => To(s, t, LockStart).(once := Some(t))
    case WaitOnce(t) => To(s, t, Closed)
    case Lock(t) => To(s, t, Closing).(writer := Some(t))
    case CloseChannel(t) => To(s, t, Unlocking).(closed := true)
    case Unlock(t) => To(s, t, Closed).(writer := None)
    case Receive => s.(buffer := s.buffer[1..], removed := s.removed + [s.buffer[0]])
    case Cancel => s.(cancelled := true)
    case SignalStop => s.(stop := true)
  }

  ghost predicate Path(s: State, events: seq<Event>, t: State)
    decreases |events|
  {
    if events == [] then s == t else Enabled(s, events[0]) && Path(Apply(s, events[0]), events[1..], t)
  }

  ghost predicate Reachable(s: State)
  {
    exists capacity: nat, events :: Path(Init(capacity), events, s)
  }

  // ---------------------------------------------------------------- the locks

  predicate HoldsWrite(p: Phase)
  {
    p.Closing? || p.Unlocking?
  }

  /** What a thread's phase says about the locks and the channel: senders hold the read lock, the
      closer the write lock, closing comes after the stop signal, and nobody is at the channel as a
      sender once it is closed. */
  predicate ThreadOk(s: State, t: nat)
    requires t in s.threads
  {
    var p := s.threads[t];
    && (t in s.readers <==> HoldsRead(p))
    && (s.writer == Some(t) <==> HoldsWrite(p))
    && (s.once == Some(t) ==> p.LockStart? || HoldsWrite(p) || p.Closed?)
    && (p.LockStart? || HoldsWrite(p) ==> s.once == Some(t))
    && (p.OnceStart? || p.LockStart? || HoldsWrite(p) || p.Closed? ==> s.stop)
    && (Pushing(p) || p.LockStart? || p.Closing? ==> !s.closed)
    && (p.Unlocking? || p.Closed? ==> s.closed)
  }

  ghost predicate LocksOk(s: State)
  {
    && (forall t :: t in s.threads ==> ThreadOk(s, t))
    && (forall t :: t in s.readers ==> t in s.threads)
    && (s.writer.Some? ==> s.writer.value in s.threads && s.readers == {})
    && (s.once.Some? ==> s.once.value in s.threads)
    && (s.closed ==> s.stop && s.once.Some?)
  }

  predicate IsCall(e: Event)
  {
    e.CallSend? || e.CallTrySend? || e.CallFail? || e.CallClose? || e.Receive? || e.Cancel? || e.SignalStop?
  }

  predicate IsClosing(e: Event)
  {
    e.Record? || e.Signal? || e.WinOnce? || e.WaitOnce? || e.Lock? || e.CloseChannel? || e.Unlock?
  }

  lemma CallKeepsLocks(s: State, e: Event)
    requires LocksOk(s) && Enabled(s, e) && IsCall(e)
    ensures LocksOk(Apply(s, e))
  {
    var s' := Apply(s, e);
    forall t | t in s'.threads ensures ThreadOk(s', t) {}
  }

  lemma CloseChannelKeepsLocks(s: State, t: nat)
    requires LocksOk(s) && Enabled(s, CloseChannel(t))
    ensures LocksOk(Apply(s, CloseChannel(t)))
  {
    var s' := Apply(s, CloseChannel(t));
    assert ThreadOk(s, t);
    assert s.readers == {};
    forall u | u in s'.threads ensures ThreadOk(s', u) { assert ThreadOk(s, u); }
  }

  lemma OnceKeepsLocks(s: State, e: Event)
    requires LocksOk(s) && Enabled(s, e) && (e.WinOnce? || e.WaitOnce? || e.Record? || e.Signal?)
    ensures LocksOk(Apply(s, e))
  {
    var s' := Apply(s, e);
    forall t | t in s'.threads ensures ThreadOk(s', t) { assert ThreadOk(s, t); }
  }

  lemma WriterKeepsLocks(s: State, e: Event)
    requires LocksOk(s) && Enabled(s, e) && (e.Lock? || e.Unlock?)
    ensures LocksOk(Apply(s, e))
  {
    var s' := Apply(s, e);
    forall t | t in s'.threads ensures ThreadOk(s', t) { assert ThreadOk(s, t); }
  }

  lemma ClosingKeepsLocks(s: State, e: Event)
    requires LocksOk(s) && Enabled(s, e) && IsClosing(e)
    ensures LocksOk(Apply(s, e))
  {
    hide LocksOk;
    if e.CloseChannel? { CloseChannelKeepsLocks(s, e.t); }
    else if e.Lock? || e.Unlock? { WriterKeepsLocks(s, e); }
    else { OnceKeepsLocks(s, e); }
  }

  /** A sender that keeps the read lock moves on. */
  lemma MoveKeepsLocks(s: State, s': State, t: nat)
    requires LocksOk(s) && t in s.threads && HoldsRead(s.threads[t]) && t in s'.threads && HoldsRead(s'.threads[t])
    requires s'.threads == s.threads[t := s'.threads[t]] && (Pushing(s'.threads[t]) ==> !s.closed)
    requires s'.readers == s.readers && s'.writer == s.writer && s'.once == s.once && s'.closed == s.closed && (s.stop ==> s'.stop)
    ensures LocksOk(s')
  {
    assert ThreadOk(s, t);
    forall u | u in s'.threads ensures ThreadOk(s', u) { assert u in s.threads ==> ThreadOk(s, u); }
  }

  lemma LockingKeepsLocks(s: State, e: Event)
    requires LocksOk(s) && Enabled(s, e) && (e.RLock? || e.RUnlock?)
    ensures LocksOk(Apply(s, e))
  {
    var s' := Apply(s, e);
    forall u | u in s'.threads ensures ThreadOk(s', u) { assert ThreadOk(s, u); }
  }

  lemma SendingKeepsLocks(s: State, e: Event)
    requires LocksOk(s) && Enabled(s, e) && !IsCall(e) && !IsClosing(e)
    ensures LocksOk(Apply(s, e))
  {
    if e.RLock? || e.RUnlock? {
      LockingKeepsLocks(s, e);
    } else {
      assert ThreadOk(s, e.t);
      MoveKeepsLocks(s, Apply(s, e), e.t);
    }
  }

  lemma StepKeepsLocks(s: State, e: Event)
    requires LocksOk(s) && Enabled(s, e)
    ensures LocksOk(Apply(s, e))
  {
    if IsCall(e) { CallKeepsLocks(s, e); } else if IsClosing(e) { ClosingKeepsLocks(s, e); } else { SendingKeepsLocks(s, e); }
  }

  // ---------------------------------------------------------------- the values

  /** Whether a call has put its value in. */
  predicate Delivered(s: State, t: nat)
  {
    t in s.threads && match s.threads[t] case Leave(d, _) => d case Sent(d, _) => d case _ => false
  }

  /** The values put in are those taken out followed by those still there, each thread's at most
      once and exactly when its call says it was delivered; the buffer stays within bounds. */
  ghost predicate ValuesOk(s: State)
  {
    && s.removed + s.buffer == s.accepted && |s.buffer| <= s.capacity
    && (forall t :: t in s.accepted <==> Delivered(s, t))
    && (forall i, j :: 0 <= i < j < |s.accepted| ==> s.accepted[i] != s.accepted[j])
  }

  /** The drop-oldest senders that took a value out and have not reported it. */
  function Owing(s: State): set<nat>
  {
    set t | t in s.threads && s.threads[t] == TryRetry(true)
  }

  ghost predicate DropsOk(s: State)
  {
    s.drops + s.losses == s.reported + |Owing(s)|
  }

  ghost predicate ErrorOk(s: State)
  {
    s.err == if s.failures == [] then None else Some(s.failures[0])
  }

  lemma PushKeepsValues(s: State, t: nat, handOff: bool)
    requires ValuesOk(s) && Enabled(s, Push(t, handOff))
    ensures ValuesOk(Apply(s, Push(t, handOff)))
  {
    var s' := Apply(s, Push(t, handOff));
    assert !Delivered(s, t);
    assert s'.removed + s'.buffer == s.accepted + [t];
    forall i, j | 0 <= i < j < |s'.accepted| ensures s'.accepted[i] != s'.accepted[j] {
      if j == |s.accepted| { assert s'.accepted[i] in s.accepted; }
    }
    forall u ensures u in s'.accepted <==> Delivered(s', u) { assert Delivered(s', u) <==> Delivered(s, u) || u == t; }
  }

  lemma TakeKeepsValues(s: State, s': State)
    requires ValuesOk(s) && s.buffer != []
    requires s'.buffer == s.buffer[1..] && s'.removed == s.removed + [s.buffer[0]] && s'.accepted == s.accepted
    requires s'.capacity == s.capacity && forall t :: Delivered(s', t) <==> Delivered(s, t)
    ensures ValuesOk(s')
  {
    hide Delivered;
    assert s'.removed + s'.buffer == s.removed + s.buffer;
  }

  predicate TouchesValues(e: Event)
  {
    e.Push? || e.Drain? || e.Receive?
  }

  lemma SameDelivered(s: State, e: Event)
    requires Enabled(s, e) && !TouchesValues(e)
    ensures forall t :: Delivered(Apply(s, e), t) <==> Delivered(s, t)
  {
    var s' := Apply(s, e);
    if IsCall(e) {
      forall t ensures Delivered(s', t) <==> Delivered(s, t) {}
    } else {
      forall t | t != e.t ensures Delivered(s', t) <==> Delivered(s, t) {}
      MoverDelivered(s, e);
    }
  }

  lemma MoverDelivered(s: State, e: Event)
    requires Enabled(s, e) && !TouchesValues(e) && !IsCall(e)
    ensures Delivered(Apply(s, e), e.t) <==> Delivered(s, e.t)
  {
  }

  lemma SameChannel(s: State, e: Event)
    requires Enabled(s, e) && !TouchesValues(e)
    ensures var s' := Apply(s, e); s'.accepted == s.accepted && s'.buffer == s.buffer && s'.removed == s.removed && s'.capacity == s.capacity
  {
  }

  lemma SameValues(s: State, e: Event)
    requires ValuesOk(s) && Enabled(s, e) && !TouchesValues(e)
    ensures ValuesOk(Apply(s, e))
  {
    SameDelivered(s, e);
    SameChannel(s, e);
    hide Delivered, Enabled, Apply;
  }

  lemma StepKeepsValues(s: State, e: Event)
    requires ValuesOk(s) && Enabled(s, e)
    ensures ValuesOk(Apply(s, e))
  {
    hide ValuesOk;
    if e.Push? { PushKeepsValues(s, e.t, e.handOff); }
    else if e.Drain? || e.Receive? { TakeKeepsValues(s, Apply(s, e)); }
    else { SameValues(s, e); }
  }

  lemma SameOwing(s: State, e: Event)
    requires Enabled(s, e) && !e.Push? && !e.FindFull? && !e.Drain?
    ensures Owing(Apply(s, e)) == Owing(s)
  {
  }

  lemma SameCounts(s: State, e: Event)
    requires Enabled(s, e) && !e.Push? && !e.FindFull? && !e.Drain?
    ensures var s' := Apply(s, e); s'.drops == s.drops && s'.losses == s.losses && s'.reported == s.reported
  {
  }

  lemma PushKeepsDrops(s: State, t: nat, handOff: bool)
    requires DropsOk(s) && Enabled(s, Push(t, handOff))
    ensures DropsOk(Apply(s, Push(t, handOff)))
  {
    assert Owing(Apply(s, Push(t, handOff))) == Owing(s) - {t};
  }

  lemma FindFullKeepsDrops(s: State, t: nat)
    requires DropsOk(s) && Enabled(s, FindFull(t))
    ensures DropsOk(Apply(s, FindFull(t)))
  {
    assert Owing(Apply(s, FindFull(t))) == Owing(s) - {t};
  }

  lemma DrainKeepsDrops(s: State, t: nat)
    requires DropsOk(s) && Enabled(s, Drain(t))
    ensures DropsOk(Apply(s, Drain(t)))
  {
    assert Owing(Apply(s, Drain(t))) == Owing(s) + {t};
    assert t !in Owing(s);
  }

  lemma StepKeepsDrops(s: State, e: Event)
    requires DropsOk(s) && Enabled(s, e)
    ensures DropsOk(Apply(s, e))
  {
    match e
    case Push(t, handOff) => PushKeepsDrops(s, t, handOff);
    case FindFull(t) => FindFullKeepsDrops(s, t);
    case Drain(t) => DrainKeepsDrops(s, t);
    case _ =>
      SameOwing(s, e);
      SameCounts(s, e);
      hide Owing, Apply, Enabled;
  }

  lemma StepKeepsError(s: State, e: Event)
    requires ErrorOk(s) && Enabled(s, e)
    ensures ErrorOk(Apply(s, e))
  {
  }

  // ---------------------------------------------------------------- results

  ghost predicate Inv(s: State)
  {
    LocksOk(s) && ValuesOk(s) && DropsOk(s) && ErrorOk(s)
  }

  lemma StepKeeps(s: State, e: Event)
    requires Inv(s) && Enabled(s, e)
    ensures Inv(Apply(s, e))
  {
    hide LocksOk, ValuesOk, DropsOk, ErrorOk;
    StepKeepsError(s, e);
    StepKeepsLocks(s, e);
    StepKeepsValues(s, e);
    StepKeepsDrops(s, e);
  }

  lemma {:induction false} PathKeeps(s: State, events: seq<Event>, t: State)
    requires Inv(s) && Path(s, events, t)
    ensures Inv(t)
    decreases |events|
  {
    hide Inv;
    if events != [] {
      StepKeeps(s, events[0]);
      PathKeeps(Apply(s, events[0]), events[1..], t);
    }
  }

  lemma ReachableInv(s: State)
    requires Reachable(s)
    ensures Inv(s)
  {
    var capacity: nat, events :| Path(Init(capacity), events, s);
    assert Owing(Init(capacity)) == {};
    PathKeeps(Init(capacity), events, s);
  }

  /** No sender is ever at a closed channel, and no channel is closed twice. */
  lemma NoSendOnClosedChannel(s: State, t: nat)
    requires Reachable(s) && t in s.threads
    ensures Pushing(s.threads[t]) ==> !s.closed
    ensures Enabled(s, CloseChannel(t)) ==> !s.closed
  {
    ReachableInv(s);
    assert ThreadOk(s, t);
  }

  /** Nothing is put into the channel once it is closed. */
  lemma NothingAfterClose(s: State, e: Event)
    requires Reachable(s) && s.closed && Enabled(s, e)
    ensures Apply(s, e).accepted == s.accepted && Apply(s, e).closed
  {
    ReachableInv(s);
    hide ValuesOk, DropsOk;
    if e.Push? { PushNeedsOpen(s, e.t, e.handOff); }
  }

  lemma PushNeedsOpen(s: State, t: nat, handOff: bool)
    requires LocksOk(s) && Enabled(s, Push(t, handOff))
    ensures !s.closed
  {
    assert ThreadOk(s, t);
  }

  /** First in, first out, and nothing is lost or doubled: what was taken out, by consumers or to
      make room, followed by what is buffered, is what was put in; a call put its value in exactly
      when it returns that it was delivered. */
  lemma ValuesConserved(s: State, t: nat)
    requires Reachable(s) && t in s.threads
    ensures s.removed + s.buffer == s.accepted && |s.buffer| <= s.capacity && multiset(s.accepted)[t] <= 1
    ensures s.threads[t].Sent? ==> (s.threads[t].delivered <==> t in s.accepted)
  {
    ReachableInv(s);
    OnceEach(s.accepted, t);
  }

  /** When no drop-oldest send is under way, the drops its callers were told of are the values taken
      out to make room and those that found none. */
  lemma DropsReported(s: State)
    requires Reachable(s) && forall t :: t in s.threads ==> !s.threads[t].TryRetry?
    ensures s.reported == s.drops + s.losses
  {
    ReachableInv(s);
    assert Owing(s) == {};
  }

  /** The error kept is the first one any Fail recorded. */
  lemma FirstErrorKept(s: State)
    requires Reachable(s)
    ensures s.err == if s.failures == [] then None else Some(s.failures[0])
  {
    ReachableInv(s);
  }

  /** Once stopped, whoever holds the read lock can leave without anybody else's help, so a closer
      gets the write lock. */
  lemma HolderLeaves(s: State, t: nat) returns (e: Event)
    requires Reachable(s) && s.stop && t in s.readers
    ensures Enabled(s, e) && (e == SeeStop(t) || e == RUnlock(t) || e == Push(t, false) || e == FindFull(t) || e == Drain(t) || e == FindEmpty(t))
    ensures Steps(Apply(s, e).threads[t]) < Steps(s.threads[t])
  {
    ReachableInv(s);
    assert ThreadOk(s, t);
    e := NextOf(s, t);
    hide Inv;
  }

  /** The step a sender takes when the pump is stopped. */
  function NextOf(s: State, t: nat): Event
    requires t in s.threads
  {
    match s.threads[t]
    case Leave(_, _) => RUnlock(t)
    case TryDrain => if s.buffer == [] then FindEmpty(t) else Drain(t)
    case TryFirst => if |s.buffer| < s.capacity then Push(t, false) else FindFull(t)
    case TryRetry(_) => if |s.buffer| < s.capacity then Push(t, false) else FindFull(t)
    case _ => SeeStop(t)
  }

  /** How many steps a sender is from giving the lock back. */
  function Steps(p: Phase): nat
  {
    match p
    case TryFirst => 4
    case TryDrain => 3
    case TryRetry(_) => 2
    case SendCheck => 2
    case SendSelect => 2
    case TryCheck => 2
    case Leave(_, _) => 1
    case _ => 0
  }
}
