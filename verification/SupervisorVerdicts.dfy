/** What the supervisor does with the result of a child, verdict by verdict, up to where the loop serves
    again or has returned. */
module SupervisorVerdicts {
  import opened Supervisor
  import opened SupervisorBuffer
  import SupervisorStall
  import Policy

  lemma StaysReachable(c: Config, s: State, events: seq<Event>, t: State)
    requires Reachable(c, s) && Path(c, s, events, t)
    ensures Reachable(c, t)
  {
    hide Path;
    var before :| Path(c, Init(c), before, s);
    SupervisorStall.PathJoin(c, Init(c), before, s, events, t);
  }

  lemma OneStep(c: Config, s: State, e: Event)
    requires Enabled(c, s, e)
    ensures Path(c, s, [e], Apply(c, s, e))
  {
    assert [e][1..] == [];
  }

  /** The result the loop reads next, and whether it is of a child it still acts for. */
  ghost predicate Reads(c: Config, s: State, verdict: Verdict, now: int)
  {
    Enabled(c, s, Receive(verdict, now)) && s.results[0].index < |s.slots|
    && s.slots[s.results[0].index].active && s.slots[s.results[0].index].generation == s.results[0].generation
  }

  /** The state with the result taken from the buffer. */
  function Read(s: State): State
    requires s.results != []
  {
    s.(results := s.results[1..], consumed := s.consumed + {s.results[0]})
  }

  // ---------------------------------------------------------------- stop

  /** A child that is not to run again: its slot alone becomes inactive, and the loop joins it. */
  lemma StopRetiresOne(c: Config, s: State, now: int)
    requires Reads(c, s, Stop, now)
    ensures var i := s.results[0].index;
      Apply(c, s, Receive(Stop, now)) == Read(s).(slots := s.slots[i := Slot(false, s.slots[i].generation)], phase := Joining(i))
  {
  }

  /** While the loop joins a retired child nothing but the children moves, and the join puts it back to
      serving with every slot as it was. */
  lemma JoiningLeavesAlone(c: Config, s: State, e: Event)
    requires s.phase.Joining? && Enabled(c, s, e)
    ensures e.Publish? || e.Close? || e.Cancel? || e.Join?
    ensures e.Join? ==> Apply(c, s, e) == s.(phase := Selecting)
    ensures !e.Join? ==> Apply(c, s, e).phase == s.phase && Apply(c, s, e).slots == s.slots
    ensures forall ch :: s.Live(ch) && !Apply(c, s, e).Live(ch) ==> e == Close(ch)
  {
  }

  /** The join comes: the retired child has published, so it only has to close, and then the loop serves the
      other slots, whose children were left alone. */
  lemma StopServesOn(c: Config, s: State, now: int) returns (events: seq<Event>, t: State)
    requires Reachable(c, s) && Reads(c, s, Stop, now)
    ensures Path(c, s, events, t) && events != [] && events[0] == Receive(Stop, now)
    ensures t.phase == Selecting && |t.slots| == |s.slots| && !t.slots[s.results[0].index].active
    ensures forall i :: 0 <= i < |s.slots| && i != s.results[0].index ==> t.slots[i] == s.slots[i]
    ensures t.running == s.running && t.closing == s.closing - {s.results[0]} && t.results == s.results[1..]
    ensures t.cancelled == s.cancelled && t.uses == s.uses
  {
    var ch, e := s.results[0], Receive(Stop, now);
    ReachableInv(c, s);
    HasPublished(c, s, ch);
    StopRetiresOne(c, s, now);
    OneStep(c, s, e);
    var joining := Apply(c, s, e);
    var more;
    more, t := JoinRetired(c, joining, ch);
    hide Apply, Enabled, Inv, Reachable;
    SupervisorStall.PathJoin(c, s, [e], joining, more, t);
    events := [e] + more;
  }

  lemma HasPublished(c: Config, s: State, ch: Child)
    requires Inv(c, s) && ch in s.results
    ensures ch !in s.running
  {
  }

  lemma JoinRetired(c: Config, s: State, ch: Child) returns (events: seq<Event>, t: State)
    requires s.phase == Joining(ch.index) && ch.index < |s.slots| && s.slots[ch.index].generation == ch.generation && ch !in s.running
    ensures Path(c, s, events, t) && t == s.(phase := Selecting, closing := s.closing - {ch})
  {
    if ch in s.closing {
      var closed := Apply(c, s, Close(ch));
      OneStep(c, s, Close(ch));
      OneStep(c, closed, Join);
      t := Apply(c, closed, Join);
      SupervisorStall.PathJoin(c, s, [Close(ch)], closed, [Join], t);
      events := [Close(ch)] + [Join];
    } else {
      OneStep(c, s, Join);
      events, t := [Join], Apply(c, s, Join);
    }
  }

  // ---------------------------------------------------------------- giving up

  /** What is left to join when the loop shuts down: every active slot, in declaration order. */
  ghost predicate ShutsDown(s: State)
  {
    s.phase.Stopping? && forall i :: 0 <= i < |s.slots| ==> (s.slots[i].active <==> i in s.phase.waiting)
  }

  /** A verdict to give up, and a restart the intensity budget refuses, shut the whole supervisor down: no
      slot changes, and every active one is to be joined. */
  lemma FailShutsDown(c: Config, s: State, verdict: Verdict, now: int)
    requires Reads(c, s, verdict, now)
    requires verdict == Fail || (verdict == Restart && !Policy.Consume(s.uses, now, c.max, c.window).1)
    ensures var t := Apply(c, s, Receive(verdict, now));
      && ShutsDown(t) && t.slots == s.slots && t.running == s.running && t.closing == s.closing && t.results == s.results[1..]
      && t.restarted == s.restarted
  {
    AffectedIs(OneForAll, s.slots, 0, 0);
    assert s.results[0].index in ActiveSlots(s.slots);
    hide Affected, Policy.Consume;
  }

  /** A shutdown is for good: nothing is started any more, and slots only become inactive. */
  lemma {:induction false} ShutdownStays(c: Config, s: State, events: seq<Event>, t: State)
    requires (s.phase.Stopping? || s.phase.Returned?) && Path(c, s, events, t)
    ensures t.phase.Stopping? || t.phase.Returned?
    ensures |t.slots| == |s.slots| && t.running <= s.running && t.restarted == s.restarted
    ensures forall i :: 0 <= i < |s.slots| ==>
      t.slots[i].generation == s.slots[i].generation && (t.slots[i].active ==> s.slots[i].active)
    decreases |events|
  {
    if events != [] {
      ShutdownStep(c, s, events[0]);
      hide Apply, Enabled;
      ShutdownStays(c, Apply(c, s, events[0]), events[1..], t);
    }
  }

  lemma ShutdownStep(c: Config, s: State, e: Event)
    requires (s.phase.Stopping? || s.phase.Returned?) && Enabled(c, s, e)
    ensures var t := Apply(c, s, e);
      && (t.phase.Stopping? || t.phase.Returned?) && |t.slots| == |s.slots| && t.running <= s.running && t.restarted == s.restarted
      && forall i :: 0 <= i < |s.slots| ==>
           t.slots[i].generation == s.slots[i].generation && (t.slots[i].active ==> s.slots[i].active)
  {
  }

  /** And it comes to its end: with a roomy buffer the loop can always go on to return, with every slot
      inactive and no child live. */
  lemma {:induction false} ShutdownReturns(c: Config, s: State, n: nat) returns (events: seq<Event>, t: State)
    requires Reachable(c, s) && Roomy(c) && s.phase.Stopping? && |s.phase.waiting| == n
    ensures Path(c, s, events, t) && t.phase.Returned?
    ensures forall i :: 0 <= i < |t.slots| ==> !t.slots[i].active
    ensures t.running == {} && t.closing == {}
    decreases n
  {
    hide Apply, Enabled, Roomy, Reachable;
    var before, ended := JoinReturns(c, s);
    StaysReachable(c, s, before, ended);
    JoinsLast(c, ended);
    OneStep(c, ended, Join);
    var joined := Apply(c, ended, Join);
    SupervisorStall.PathJoin(c, s, before, ended, [Join], joined);
    StaysReachable(c, s, before + [Join], joined);
    if joined.phase.Returned? {
      events, t := before + [Join], joined;
      QuietAtEnd(c, joined);
    } else {
      var more;
      more, t := ShutdownReturns(c, joined, n - 1);
      SupervisorStall.PathJoin(c, s, before + [Join], joined, more, t);
      events := before + [Join] + more;
    }
  }

  lemma JoinsLast(c: Config, s: State)
    requires s.phase.Stopping? && Enabled(c, s, Join)
    ensures var t := Apply(c, s, Join);
      t.phase.Returned? || (t.phase.Stopping? && |t.phase.waiting| + 1 == |s.phase.waiting|)
  {
  }

  lemma QuietAtEnd(c: Config, s: State)
    requires Reachable(c, s) && s.phase.Returned?
    ensures (forall i :: 0 <= i < |s.slots| ==> !s.slots[i].active) && s.running == {} && s.closing == {}
  {
    ReachableInv(c, s);
    assert forall ch :: ch in s.running || ch in s.closing ==> s.Live(ch);
    assert forall ch :: !s.Live(ch);
  }

  /** So a child the supervisor cannot go on without takes it down altogether. */
  lemma FailReturns(c: Config, s: State, verdict: Verdict, now: int) returns (events: seq<Event>, t: State)
    requires Reachable(c, s) && Roomy(c) && Reads(c, s, verdict, now)
    requires verdict == Fail || (verdict == Restart && !Policy.Consume(s.uses, now, c.max, c.window).1)
    ensures Path(c, s, events, t) && events != [] && events[0] == Receive(verdict, now)
    ensures t.phase.Returned? && (forall i :: 0 <= i < |t.slots| ==> !t.slots[i].active) && t.running == {} && t.closing == {}
    ensures |t.slots| == |s.slots| && forall i :: 0 <= i < |s.slots| ==> t.slots[i].generation == s.slots[i].generation
  {
    var e := Receive(verdict, now);
    FailShutsDown(c, s, verdict, now);
    OneStep(c, s, e);
    var stopping := Apply(c, s, e);
    hide Apply, Enabled, Roomy, Policy.Consume, Reads;
    StaysReachable(c, s, [e], stopping);
    var more;
    more, t := ShutdownReturns(c, stopping, |stopping.phase.waiting|);
    ShutdownStays(c, stopping, more, t);
    SupervisorStall.PathJoin(c, s, [e], stopping, more, t);
    events := [e] + more;
  }

  // ---------------------------------------------------------------- restart

  /** Which slots a failure restarts: the failed one, all, or it and those declared after it. */
  predicate Restarts(strategy: Strategy, failed: nat, i: nat)
  {
    if strategy == OneForOne then i == failed else if strategy == OneForAll then true else failed <= i
  }

  /** A restart that is admitted is for the active ones of those, and first waits for all of them. */
  lemma RestartQuiesces(c: Config, s: State, now: int)
    requires Reads(c, s, Restart, now) && Policy.Consume(s.uses, now, c.max, c.window).1
    ensures var t, f := Apply(c, s, Receive(Restart, now)), s.results[0].index;
      && t.phase.Quiescing? && t.phase.failed == f && t.phase.waiting == t.phase.affected
      && (forall i: nat :: i in t.phase.affected <==> i < |s.slots| && s.slots[i].active && Restarts(c.strategy, f, i))
      && Ascending(t.phase.affected)
      && t.slots == s.slots && t.running == s.running && t.closing == s.closing && t.results == s.results[1..]
      && t.restarted == s.restarted + [now]
  {
    AffectedIs(c.strategy, s.slots, s.results[0].index, 0);
    hide Affected, Policy.Consume;
  }

  /** From then on until the loop serves again: every slot of `affected` not yet started is as it was, every
      one started runs one generation more, and the others are as they were. */
  ghost predicate Restarting(slots: seq<Slot>, affected: seq<nat>, s: State)
  {
    && |s.slots| == |slots| && Ascending(affected) && (forall k :: 0 <= k < |affected| ==> affected[k] < |slots|)
    && match s.phase
       case Quiescing(_, _, a) => a == affected && s.slots == slots
       case BackingOff(a) => a == affected && s.slots == slots
       case Starting(p) => |p| <= |affected| && p == affected[|affected| - |p|..] && Advanced(slots, affected[..|affected| - |p|], s.slots)
       case Selecting => Advanced(slots, affected, s.slots)
       case _ => false
  }

  ghost predicate Advanced(before: seq<Slot>, started: seq<nat>, after: seq<Slot>)
  {
    |after| == |before| && forall i :: 0 <= i < |before| ==>
      after[i] == if i in started then Slot(before[i].active, before[i].generation + 1) else before[i]
  }

  /** Every step keeps that, unless the wait for the backoff fails and the loop shuts down. */
  lemma RestartStep(c: Config, slots: seq<Slot>, affected: seq<nat>, s: State, e: Event)
    requires Restarting(slots, affected, s) && !s.phase.Selecting? && Enabled(c, s, e) && !e.StopAll? && affected != []
    ensures Restarting(slots, affected, Apply(c, s, e))
  {
    if e.Start? { StartAdvances(slots, affected, s, e.reconstructed); }
    hide Ascending;
  }

  lemma StartAdvances(slots: seq<Slot>, affected: seq<nat>, s: State, ok: bool)
    requires Restarting(slots, affected, s) && s.phase.Starting? && s.phase.pending != [] && s.phase.pending[0] < |s.slots|
    ensures Restarting(slots, affected, StartNext(s, ok))
  {
    var p := s.phase.pending;
    var done := |affected| - |p|;
    assert p[0] == affected[done] && p[1..] == affected[done + 1..];
    assert affected[..done + 1] == affected[..done] + [affected[done]];
    forall k | 0 <= k < done ensures affected[k] != affected[done] {}
    assert p[0] !in affected[..done];
    assert affected[..|affected|] == affected;
  }

  /** Until the loop serves again, no event but the failure of the wait shuts it down. */
  ghost predicate Away(c: Config, s: State, events: seq<Event>)
    decreases |events|
  {
    events == [] || (Enabled(c, s, events[0]) && !s.phase.Selecting? && !events[0].StopAll? && Away(c, Apply(c, s, events[0]), events[1..]))
  }

  /** So when the loop serves again after an admitted restart, exactly the slots the strategy selects run one
      new generation each, and all others are as they were. */
  lemma RestartReplaces(c: Config, s: State, now: int, events: seq<Event>, t: State)
    requires Reachable(c, s) && Reads(c, s, Restart, now) && Policy.Consume(s.uses, now, c.max, c.window).1
    requires var q := Apply(c, s, Receive(Restart, now)); Path(c, q, events, t) && Away(c, q, events) && t.phase.Selecting?
    ensures |t.slots| == |s.slots| && forall i: nat :: i < |s.slots| ==>
      t.slots[i] == if s.slots[i].active && Restarts(c.strategy, s.results[0].index, i)
                    then Slot(true, s.slots[i].generation + 1) else s.slots[i]
  {
    var q := Apply(c, s, Receive(Restart, now));
    RestartQuiesces(c, s, now);
    assert s.results[0].index in q.phase.affected;
    forall k | 0 <= k < |q.phase.affected| ensures q.phase.affected[k] < |s.slots| { assert q.phase.affected[k] in q.phase.affected; }
    assert Restarting(s.slots, q.phase.affected, q);
    hide Apply, Enabled, Ascending, Policy.Consume, Restarting;
    PathRestarts(c, s.slots, q.phase.affected, q, events, t);
    AllAdvanced(s.slots, q.phase.affected, t);
  }

  lemma AllAdvanced(slots: seq<Slot>, affected: seq<nat>, t: State)
    requires Restarting(slots, affected, t) && t.phase.Selecting?
    ensures Advanced(slots, affected, t.slots)
  {
  }

  lemma {:induction false} PathRestarts(c: Config, slots: seq<Slot>, affected: seq<nat>, s: State, events: seq<Event>, t: State)
    requires Restarting(slots, affected, s) && affected != [] && Path(c, s, events, t) && Away(c, s, events)
    ensures Restarting(slots, affected, t)
    decreases |events|
  {
    hide Apply, Enabled, Restarting;
    if events != [] {
      RestartStep(c, slots, affected, s, events[0]);
      PathRestarts(c, slots, affected, Apply(c, s, events[0]), events[1..], t);
    }
  }
}
