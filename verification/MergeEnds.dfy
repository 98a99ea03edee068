/** How a merge comes to its end: what a failure stops, and why nothing can keep it from ending. */
module MergeEnds {
  import opened Common
  import opened Merge

  // ---------------------------------------------------------------- what a failure stops

  /** What a forwarder reports is its source's error or its own panic. */
  ghost predicate ReportsOwn(f: Forwarder)
  {
    match f
    case Reporting(Some(e)) => e.FromSource? || e.Panicked?
    case Reported(Some(e)) => e.FromSource? || e.Panicked?
    case _ => true
  }

  /** The sources are told only when the merge is stopping.  An error of a source, or a forwarder's panic, stops
      the other forwarders and the sources; a cancellation stops the merged pump and the sources. */
  ghost predicate Stopping(s: State)
  {
    && (s.told ==> s.stop || s.stopForwarders)
    && (s.err.Some? && (s.coordinator.Loop? || s.coordinator.Joining?) ==> s.err.value.FromOwner?)
    && (forall i :: 0 <= i < |s.lanes.forwarders| ==> ReportsOwn(s.lanes.forwarders[i]))
    && match s.terminal
       case None => true
       case Some(FromOwner(_)) => true
       case Some(Cancelled) => s.stop && s.told
       case Some(_) => s.stopForwarders && s.told
  }

  lemma ForwarderKeepsStopping(s: State, e: Event)
    requires Inv(s) && Stopping(s) && Enabled(s, e) && IsForwarders(e)
    ensures Stopping(Apply(s, e))
  {
    ForwardersLeave(s, e);
    NextReportsOwn(s, e);
    var t := Apply(s, e);
    assert t.lanes.forwarders == s.lanes.forwarders[e.i := Next(s, e).1];
    hide Apply, Enabled, Next, Inv, ReportsOwn;
    forall i | 0 <= i < |t.lanes.forwarders| ensures ReportsOwn(t.lanes.forwarders[i]) {
      if i != e.i { assert t.lanes.forwarders[i] == s.lanes.forwarders[i]; }
    }
  }

  lemma NextReportsOwn(s: State, e: Event)
    requires Inv(s) && Stopping(s) && Enabled(s, e) && IsForwarders(e)
    ensures e.i < |s.lanes.forwarders| && ReportsOwn(Next(s, e).1)
  {
    assert e.i < |s.lanes.forwarders| && e.i < |s.lanes.sources| && ForwarderOk(s, e.i) && ReportsOwn(s.lanes.forwarders[e.i]);
    hide Inv, ForwardersOk, ReportsOk, BadOk, AloneOk, EndOk;
  }

  lemma OtherKeepsStopping(s: State, e: Event)
    requires Stopping(s) && Enabled(s, e) && !IsForwarders(e) && !e.ReadResult?
    ensures Stopping(Apply(s, e))
  {
    hide NobodyDelivers, Conclude, Popped, Forward, ReportsOwn;
  }

  lemma ReadKeepsStopping(s: State)
    requires Stopping(s) && Enabled(s, ReadResult)
    ensures Stopping(Apply(s, ReadResult))
  {
    var result := s.lanes.forwarders[s.results[0]].result;
    assert ReportsOwn(s.lanes.forwarders[s.results[0]]);
    hide NobodyDelivers, Forward;
  }

  lemma {:induction false} PathStopping(s: State, events: seq<Event>, t: State)
    requires Inv(s) && Stopping(s) && Path(s, events, t)
    ensures Stopping(t)
    decreases |events|
  {
    hide Inv, Stopping, Apply, Enabled;
    if events != [] {
      var e := events[0];
      StepKeeps(s, e);
      if IsForwarders(e) { ForwarderKeepsStopping(s, e); } else if e.ReadResult? { ReadKeepsStopping(s); } else { OtherKeepsStopping(s, e); }
      PathStopping(Apply(s, e), events[1..], t);
    }
  }

  lemma ReachableStopping(s: State)
    requires Reachable(s)
    ensures Stopping(s)
  {
    var n: nat, events :| Path(Init(n), events, s);
    InitInv(n);
    PathStopping(Init(n), events, s);
  }

  /** Once the coordinator has read that a source failed, every source was told to stop, and the other forwarders
      or the whole merged pump with them; only an error of the owner, recorded before, keeps it from that. */
  lemma FailureStopsOthers(s: State, i: nat)
    requires Reachable(s) && i in s.read && i < |s.lanes.forwarders|
    requires s.lanes.forwarders[i].Reported? && s.lanes.forwarders[i].result.Some?
    ensures s.terminal.Some?
    ensures !s.terminal.value.FromOwner? ==> s.told && (if s.terminal.value.Cancelled? then s.stop else s.stopForwarders)
    ensures !s.meddled && !s.cancelled ==> s.told && s.stopForwarders && s.terminal == s.firstBad
  {
    ReachableInv(s);
    ReachableStopping(s);
    if !s.meddled && !s.cancelled {
      var k :| 0 <= k < |s.lanes.forwarders| && s.lanes.forwarders[k] == Reported(s.firstBad);
      assert ReportsOwn(s.lanes.forwarders[k]);
    }
  }

  /** And the sources are told only then: no source is stopped by a merge that goes on. */
  lemma ToldForCause(s: State)
    requires Reachable(s) && s.told
    ensures s.stop || s.stopForwarders
  {
    ReachableStopping(s);
  }

  // ---------------------------------------------------------------- what still gets through

  /** Values a forwarder may still put in once the other forwarders are being stopped, or once the pump is. */
  function InHand(f: Forwarder, stop: bool): nat
  {
    if f.Delivering? || (!stop && (f.Waiting? || f.Sending?)) then 1 else 0
  }

  lemma StepInHand(s: State, e: Event, i: nat)
    requires ForwardersOk(s) && Enabled(s, e) && i < |s.lanes.sources|
    requires s.stop || s.stopForwarders
    ensures var t := Apply(s, e);
      && (s.stop ==> t.stop) && (s.stopForwarders ==> t.stopForwarders) && |t.lanes.sources| == |t.lanes.forwarders| == |s.lanes.sources|
      && t.lanes.sources[i].sent + InHand(t.lanes.forwarders[i], s.stop) <= s.lanes.sources[i].sent + InHand(s.lanes.forwarders[i], s.stop)
  {
    if IsForwarders(e) {
      ForwardersLeave(s, e);
      var (source, f) := Next(s, e);
      assert Apply(s, e).lanes.sources == s.lanes.sources[e.i := source] && Apply(s, e).lanes.forwarders == s.lanes.forwarders[e.i := f];
      hide Apply, ForwarderOk;
    } else {
      OthersLeave(s, e);
      OthersAdvance(s, e);
      hide Apply, Enabled;
    }
  }

  /** Once the forwarders are being stopped each source gets at most one more value through, the one its
      forwarder waits for or has in hand; once the pump is stopped only one that is being put in. */
  lemma {:induction false} AtMostOneMore(s: State, events: seq<Event>, t: State, i: nat)
    requires ForwardersOk(s) && Path(s, events, t) && i < |s.lanes.sources| && (s.stop || s.stopForwarders)
    ensures i < |t.lanes.sources| && t.lanes.sources[i].sent <= s.lanes.sources[i].sent + InHand(s.lanes.forwarders[i], s.stop)
    decreases |events|
  {
    hide ForwardersOk, Apply, Enabled, InHand;
    assert |s.lanes.forwarders| == |s.lanes.sources| by { SameLength(s); }
    if events != [] {
      StepInHand(s, events[0], i);
      StepKeepsForwarders(s, events[0]);
      var next := Apply(s, events[0]);
      AtMostOneMore(next, events[1..], t, i);
      MoreStopped(next.lanes.forwarders[i], s.stop, next.stop);
    }
  }

  lemma SameLength(s: State)
    requires ForwardersOk(s)
    ensures |s.lanes.forwarders| == |s.lanes.sources|
  {
  }

  lemma MoreStopped(f: Forwarder, before: bool, after: bool)
    requires before ==> after
    ensures InHand(f, after) <= InHand(f, before)
  {
  }

  // ---------------------------------------------------------------- why it ends

  /** Nothing more has to arrive from outside: the merge was stopped or cancelled, or all its sources ended. */
  predicate Winding(s: State)
  {
    s.stop || s.stopForwarders || s.cancelled || forall i :: 0 <= i < |s.lanes.sources| ==> s.lanes.sources[i].ended
  }

  /** What a forwarder can do next without waiting for anybody. */
  function OwnStep(s: State, i: nat): Event
    requires i < |s.lanes.forwarders| == |s.lanes.sources|
  {
    match s.lanes.forwarders[i]
    case Top => if s.stopForwarders then Quit(i) else PassTop(i)
    case Waiting =>
      if s.stop || s.stopForwarders then Quit(i) else if s.cancelled then QuitCancelled(i)
      else if s.lanes.sources[i].taken < |s.lanes.sources[i].data| then Take(i) else FindEnd(i)
    case Sending => if s.stop then Quit(i) else if s.cancelled then QuitCancelled(i) else BeginSend(i)
    case Delivering => if s.stop then Quit(i) else if s.cancelled then QuitCancelled(i) else Deliver(i)
    case _ => Report(i)
  }

  /** How many such steps are left at most. */
  function Steps(source: Source, f: Forwarder): nat
  {
    6 * (if source.taken < |source.data| then |source.data| - source.taken else 0)
    + match f
      case Sending => 5
      case Delivering => 4
      case Top => 3
      case Waiting => 2
      case Reporting(_) => 1
      case Reported(_) => 0
  }

  function AllSteps(lanes: Lanes, n: nat): nat
    requires n <= |lanes.sources| == |lanes.forwarders|
  {
    if n == 0 then 0 else AllSteps(lanes, n - 1) + Steps(lanes.sources[n - 1], lanes.forwarders[n - 1])
  }

  lemma {:induction false} StepsElsewhere(a: Lanes, b: Lanes, n: nat, i: nat)
    requires n <= |a.sources| == |a.forwarders| == |b.sources| == |b.forwarders|
    requires i < |a.sources| && forall k :: 0 <= k < |a.sources| && k != i ==> b.sources[k] == a.sources[k] && b.forwarders[k] == a.forwarders[k]
    requires Steps(b.sources[i], b.forwarders[i]) < Steps(a.sources[i], a.forwarders[i])
    ensures if i < n then AllSteps(b, n) < AllSteps(a, n) else AllSteps(b, n) == AllSteps(a, n)
  {
    hide Steps;
    if n > 0 { StepsElsewhere(a, b, n - 1, i); }
  }

  lemma OwnStepEnabled(s: State, i: nat)
    requires Inv(s) && Winding(s) && i < |s.lanes.forwarders| == |s.lanes.sources| && !s.lanes.forwarders[i].Reported?
    ensures Enabled(s, OwnStep(s, i)) && IsForwarders(OwnStep(s, i)) && OwnStep(s, i).i == i
  {
    assert ForwarderOk(s, i);
    if s.lanes.forwarders[i].Reporting? {
      QueuedAreOthers(s, i);
      RoomForOne(s.results, i, |s.lanes.sources|);
    }
  }

  lemma OwnStepTaken(s: State, i: nat)
    requires i < |s.lanes.forwarders| == |s.lanes.sources| && !s.lanes.forwarders[i].Reported?
    requires Enabled(s, OwnStep(s, i)) && IsForwarders(OwnStep(s, i)) && OwnStep(s, i).i == i
    ensures var (source, f) := Next(s, OwnStep(s, i));
      Steps(source, f) < Steps(s.lanes.sources[i], s.lanes.forwarders[i]) && (s.lanes.sources[i].ended ==> source.ended)
  {
  }

  lemma OneStepLess(s: State, i: nat)
    requires Inv(s) && Winding(s) && i < |s.lanes.forwarders| == |s.lanes.sources| && !s.lanes.forwarders[i].Reported?
    ensures Enabled(s, OwnStep(s, i)) && IsForwarders(OwnStep(s, i))
    ensures var t := Apply(s, OwnStep(s, i));
      && t.coordinator == s.coordinator && t.meddled == s.meddled && Winding(t)
      && |t.lanes.forwarders| == |t.lanes.sources| == |s.lanes.sources| && AllSteps(t.lanes, |s.lanes.sources|) < AllSteps(s.lanes, |s.lanes.sources|)
  {
    OwnStepEnabled(s, i);
    OwnStepTaken(s, i);
    var e := OwnStep(s, i);
    var t := Apply(s, e);
    var (source, f) := Next(s, e);
    ForwardersLeave(s, e);
    assert t.lanes.sources == s.lanes.sources[i := source] && t.lanes.forwarders == s.lanes.forwarders[i := f] && t.stop == (s.stop || e.QuitCancelled?);
    hide Apply, Enabled, Next, Inv, Steps, OwnStep;
    StepsElsewhere(s.lanes, t.lanes, |s.lanes.sources|, i);
  }

  /** The forwarders can all come to their reports. */
  lemma {:induction false} ForwardersReport(s: State, left: nat) returns (events: seq<Event>, t: State)
    requires Inv(s) && Winding(s) && |s.lanes.forwarders| == |s.lanes.sources| && left == AllSteps(s.lanes, |s.lanes.sources|)
    ensures Path(s, events, t) && Inv(t) && AllReported(t) && t.coordinator == s.coordinator && t.meddled == s.meddled
    decreases left
  {
    hide Inv, Apply, Enabled, Winding, OwnStep, AllSteps;
    if i: nat :| i < |s.lanes.forwarders| && !s.lanes.forwarders[i].Reported? {
      OneStepLess(s, i);
      var e := OwnStep(s, i);
      StepKeeps(s, e);
      var more;
      more, t := ForwardersReport(Apply(s, e), AllSteps(Apply(s, e).lanes, |s.lanes.sources|));
      PathStep(s, e, more, t);
      events := [e] + more;
    } else {
      events, t := [], s;
    }
  }

  /** While reports are missing from its count, one is in the channel. */
  lemma ReportWaits(s: State)
    requires Inv(s) && AllReported(s) && s.coordinator.Loop? && s.coordinator.remaining > 0
    ensures Enabled(s, ReadResult)
  {
    hide ForwardersOk, BadOk, AloneOk, EndOk;
    if s.results == [] {
      forall i: nat | i < |s.lanes.sources| ensures i in s.read { assert s.lanes.forwarders[i].Reported?; }
      AllBelow(s.read, |s.lanes.sources|);
    } else {
      assert s.results[0] in s.results;
    }
  }

  lemma {:induction false} AllBelow(read: set<nat>, n: nat)
    requires forall i: nat :: i < n ==> i in read
    ensures |read| >= n
  {
    if n > 0 {
      AllBelow(read - {n - 1}, n - 1);
    }
  }

  /** With every forwarder's report in, the coordinator reads them and ends. */
  lemma {:induction false} CoordinatorEnds(s: State, left: nat) returns (events: seq<Event>, t: State)
    requires Inv(s) && AllReported(s) && !s.coordinator.Crashed? && left == CoordinatorSteps(s.coordinator)
    ensures Path(s, events, t) && Inv(t) && t.coordinator.Ended? && t.meddled == s.meddled && (if s.coordinator.Ended? then t == s else t.closed)
    decreases left
  {
    hide Inv;
    if s.coordinator.Ended? {
      events, t := [], s;
    } else {
      var e := CoordinatorStep(s.coordinator);
      CoordinatorStepTaken(s);
      StepKeeps(s, e);
      hide Apply, Enabled, AllReported, CoordinatorSteps, CoordinatorStep;
      var more;
      more, t := CoordinatorEnds(Apply(s, e), CoordinatorSteps(Apply(s, e).coordinator));
      PathStep(s, e, more, t);
      events := [e] + more;
    }
  }

  function CoordinatorSteps(c: Coordinator): nat
  {
    match c
    case Loop(remaining, _, _) => 3 + remaining
    case Joining => 2
    case Ending(_) => 1
    case _ => 0
  }

  function CoordinatorStep(c: Coordinator): Event
  {
    match c
    case Loop(remaining, _, _) => if remaining > 0 then ReadResult else LeaveLoop
    case Joining => Finish
    case _ => Close
  }

  lemma CoordinatorStepTaken(s: State)
    requires Inv(s) && AllReported(s) && !s.coordinator.Crashed? && !s.coordinator.Ended?
    ensures var e := CoordinatorStep(s.coordinator);
      Enabled(s, e) && !IsForwarders(e)
      && var t := Apply(s, e);
         AllReported(t) && !t.coordinator.Crashed? && CoordinatorSteps(t.coordinator) < CoordinatorSteps(s.coordinator) && t.meddled == s.meddled
         && (t.coordinator.Ended? ==> t.closed)
  {
    hide Inv;
    if s.coordinator.Loop? && s.coordinator.remaining > 0 {
      ReportWaits(s);
      ReadTaken(s);
    } else {
      LastStepTaken(s);
    }
    hide Apply, Enabled, AllReported, First;
  }

  lemma LastStepTaken(s: State)
    requires AllReported(s) && !s.coordinator.Crashed? && !s.coordinator.Ended? && (s.coordinator.Loop? ==> s.coordinator.remaining == 0)
    ensures var e := CoordinatorStep(s.coordinator);
      Enabled(s, e) && !IsForwarders(e)
      && var t := Apply(s, e);
         t.lanes == s.lanes && !t.coordinator.Crashed? && CoordinatorSteps(t.coordinator) < CoordinatorSteps(s.coordinator)
         && t.meddled == s.meddled && (t.coordinator.Ended? ==> t.closed)
  {
    hide Conclude, Popped, Forward, First;
  }

  lemma ReadTaken(s: State)
    requires Enabled(s, ReadResult)
    ensures var t := Apply(s, ReadResult);
      && t.lanes == s.lanes && t.meddled == s.meddled
      && t.coordinator == s.coordinator.(remaining := s.coordinator.remaining - 1)
  {
    ReadLeaves(s);
    var result := s.lanes.forwarders[s.results[0]].result;
    ConcludeReadsNothing(Popped(s, result), result);
    hide NobodyDelivers, Conclude, Forward, First;
  }

  /** Nothing can keep a merge from ending: whatever state it is in, once it was stopped or cancelled, or all its
      sources ended, its own steps take it to its end, every forwarder done and the merged pump closed. */
  lemma MergeCanEnd(s: State) returns (events: seq<Event>, t: State)
    requires Reachable(s) && Winding(s) && !s.coordinator.Crashed?
    ensures Path(s, events, t) && t.coordinator.Ended? && AllReported(t)
    ensures t.meddled == s.meddled && (!s.coordinator.Ended? ==> t.closed)
  {
    ReachableInv(s);
    SameLength(s);
    hide Inv, Winding;
    var reports, reported := ForwardersReport(s, AllSteps(s.lanes, |s.lanes.sources|));
    var last;
    last, t := CoordinatorEnds(reported, CoordinatorSteps(reported.coordinator));
    PathJoin(s, reports, reported, last, t);
    EndedIsReported(t);
    events := reports + last;
  }

  lemma EndedIsReported(t: State)
    requires Inv(t) && t.coordinator.Ended?
    ensures AllReported(t)
  {
  }

  // ---------------------------------------------------------------- the others

  /** What the owner and a crash of the coordinator do. */
  lemma OwnersSteps(s: State, text: string)
    ensures Enabled(s, OwnerStop) && Apply(s, OwnerStop) == s.(stop := true, meddled := true)
    ensures Enabled(s, Cancel) && Apply(s, Cancel) == s.(cancelled := true)
    ensures Enabled(s, OwnerRecord(text)) && Apply(s, OwnerRecord(text)).err == if s.err.Some? then s.err else Some(FromOwner(text))
    ensures Enabled(s, Crash) ==> var t := Apply(s, Crash); t.stop && t.told && t.err == (if s.err.Some? then s.err else Some(Panicked))
  {
  }

  /** An owner that records no error, or only after it has signalled stop, has announced all it does. */
  lemma {:induction false} AnnouncedExactly(s: State, events: seq<Event>, t: State)
    requires Path(s, events, t) && (s.stop || forall k :: 0 <= k < |events| ==> !events[k].OwnerRecord?)
    ensures Announced(s, events)
    decreases |events|
  {
    if events != [] {
      if s.stop { StopStays(s, events[0]); }
      hide Apply, Enabled;
      AnnouncedExactly(Apply(s, events[0]), events[1..], t);
    }
  }

  lemma StopStays(s: State, e: Event)
    requires Enabled(s, e) && s.stop
    ensures Apply(s, e).stop
  {
    if IsForwarders(e) { ForwardersLeave(s, e); } else { OthersAdvance(s, e); }
    hide Apply, Enabled;
  }
}
