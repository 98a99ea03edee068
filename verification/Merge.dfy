/** Merging pumps: one forwarder a source, one coordinator, and the owner of the merged pump, as
    steps of one system.

    A send is two steps: `BeginSend` takes the read lock and looks at the stop signal, `Deliver`
    puts the value in; closing waits until nobody is between them.  The forwarder is the only
    reader of its source. */
module Merge {
  import opened Common

  datatype Error = FromSource(text: string) | FromOwner(text: string) | Cancelled | Panicked

  /** A source: what it has produced, whether it ended, its error, how many of its values the
      forwarder took and how many it delivered. */
  datatype Source = Source(data: seq<int>, ended: bool, err: Option<Error>, taken: nat, sent: nat)

  datatype Forwarder =
    | Top | Waiting | Sending | Delivering
    | Reporting(result: Option<Error>)
    | Reported(result: Option<Error>)

  datatype Coordinator =
    | Loop(remaining: nat, watchStop: bool, watchDone: bool)
    | Joining
    | Ending(failure: Option<Error>)
    | Ended(failure: Option<Error>)
    | Crashed

  /** The sources, their forwarders, and what those have put into the merged pump, by source. */
  datatype Lanes = Lanes(sources: seq<Source>, forwarders: seq<Forwarder>, accepted: seq<(nat, int)>)

  datatype State = State(
    lanes: Lanes,
    results: seq<nat>,               // reports in the channel, by forwarder
    coordinator: Coordinator,
    terminal: Option<Error>,
    stopForwarders: bool,
    told: bool,                      // the sources were told to stop
    stop: bool, cancelled: bool, closed: bool, err: Option<Error>,   // the merged pump
    read: set<nat>,                  // history: the reports the coordinator read
    firstBad: Option<Error>,         // history: the first error among them
    meddled: bool)                   // history: the owner stopped or failed the merged pump

  datatype Event =
    | Produce(i: nat, value: int) | EndSource(i: nat, error: Option<Error>)
    | PassTop(i: nat) | Quit(i: nat) | QuitCancelled(i: nat) | Take(i: nat) | FindEnd(i: nat)
    | BeginSend(i: nat) | Deliver(i: nat) | Panic(i: nat) | Report(i: nat)
    | ReadResult | SeeStop | SeeDone | LeaveLoop | Finish | Close | Crash
    | OwnerRecord(text: string) | OwnerStop | OwnerClose | Cancel

  function Init(n: nat): State
  {
    State(Lanes(seq(n, _ => Source([], false, None, 0, 0)), seq(n, _ => Top), []), [],
          if n == 0 then Ending(None) else Loop(n, true, true),
          None, false, false, false, false, false, None, {}, None, false)
  }

  predicate At(s: State, i: nat, f: Forwarder)
  {
    i < |s.lanes.forwarders| && i < |s.lanes.sources| && s.lanes.forwarders[i] == f
  }

  /** Nobody holds the read lock, so a closer can take the write lock. */
  predicate NobodyDelivers(s: State)
  {
    forall i :: 0 <= i < |s.lanes.forwarders| ==> !s.lanes.forwarders[i].Delivering?
  }

  predicate Enabled(s: State, e: Event)
  {
    match e
    case Produce(i, _) => i < |s.lanes.sources| && i < |s.lanes.forwarders| && !s.lanes.sources[i].ended
    case EndSource(i, error) => i < |s.lanes.sources| && i < |s.lanes.forwarders| && (error.Some? ==> error.value.FromSource?)
    case PassTop(i) => At(s, i, Top) && !s.stopForwarders
    case Quit(i) =>
      || (At(s, i, Top) && s.stopForwarders)
      || (At(s, i, Waiting) && (s.stop || s.stopForwarders))
      || ((At(s, i, Sending) || At(s, i, Delivering)) && s.stop)
    case QuitCancelled(i) => (At(s, i, Waiting) || At(s, i, Sending) || At(s, i, Delivering)) && s.cancelled
    case Take(i) => At(s, i, Waiting) && s.lanes.sources[i].taken < |s.lanes.sources[i].data|
    case FindEnd(i) => At(s, i, Waiting) && s.lanes.sources[i].ended && s.lanes.sources[i].taken == |s.lanes.sources[i].data|
    case BeginSend(i) => At(s, i, Sending) && !s.stop && !s.cancelled
    case Deliver(i) => At(s, i, Delivering) && 0 <= s.lanes.sources[i].sent < |s.lanes.sources[i].data|
    case Panic(i) => At(s, i, Top) || At(s, i, Waiting) || At(s, i, Sending) || At(s, i, Delivering)
    case Report(i) => i < |s.lanes.forwarders| && i < |s.lanes.sources| && s.lanes.forwarders[i].Reporting? && |s.results| < |s.lanes.sources|
    case ReadResult => s.coordinator.Loop? && s.coordinator.remaining > 0 && s.results != [] && s.results[0] < |s.lanes.forwarders| && s.lanes.forwarders[s.results[0]].Reported?
    case SeeStop => s.coordinator.Loop? && s.coordinator.remaining > 0 && s.coordinator.watchStop && s.stop
    case SeeDone => s.coordinator.Loop? && s.coordinator.remaining > 0 && s.coordinator.watchDone && s.cancelled
    case LeaveLoop => s.coordinator.Loop? && s.coordinator.remaining == 0
    case Finish => s.coordinator.Joining? && forall i :: 0 <= i < |s.lanes.forwarders| ==> s.lanes.forwarders[i].Reported?
    case Close => s.coordinator.Ending? && NobodyDelivers(s)
    case Crash => s.coordinator.Loop? || s.coordinator.Joining?
    case OwnerRecord(_) => true
    case OwnerStop => true
    case OwnerClose => s.stop && !s.closed && NobodyDelivers(s)
    case Cancel => true
  }

  function First(err: Option<Error>, other: Option<Error>): Option<Error>
  {
    if err.Some? then err else other
  }

  function Popped(s: State, result: Option<Error>): State
    requires s.coordinator.Loop? && s.coordinator.remaining > 0 && s.results != []
  {
    s.(results := s.results[1..], read := s.read + {s.results[0]}, firstBad := First(s.firstBad, result),
       coordinator := s.coordinator.(remaining := s.coordinator.remaining - 1))
  }

  /** The first failure becomes the terminal error, unless the merged pump already has one. */
  function Conclude(s: State, result: Option<Error>): State
  {
    if result == None || s.terminal.Some? then s
    else if s.err.Some? then s.(terminal := s.err)
    else if s.cancelled then s.(terminal := Some(Cancelled), stop := true, told := true)
    else s.(terminal := result, stopForwarders := true, told := true)
  }

  predicate IsForwarders(e: Event)
  {
    e.PassTop? || e.Quit? || e.QuitCancelled? || e.Take? || e.FindEnd? || e.BeginSend? || e.Deliver? || e.Panic? || e.Report? || e.Produce? || e.EndSource?
  }

  /** Where a step of a source or its forwarder takes the two. */
  function Next(s: State, e: Event): (Source, Forwarder)
    requires IsForwarders(e) && Enabled(s, e)
  {
    var source, f := s.lanes.sources[e.i], s.lanes.forwarders[e.i];
    match e
    case Produce(_, v) => (source.(data := source.data + [v]), f)
    case EndSource(_, error) => (source.(ended := true, err := First(source.err, error)), f)
    case PassTop(_) => (source, Waiting)
    case Quit(_) => (source, Reporting(None))
    case QuitCancelled(_) => (source, Reporting(None))
    case Take(_) => (source.(taken := source.taken + 1), Sending)
    case FindEnd(_) => (source, Reporting(source.err))
    case BeginSend(_) => (source, Delivering)
    case Deliver(_) => (source.(sent := source.sent + 1), Top)
    case Panic(_) => (source, Reporting(Some(Panicked)))
    case Report(_) => (source, Reported(f.result))
  }

  function Forward(s: State, e: Event): State
    requires IsForwarders(e) && Enabled(s, e)
  {
    var (source, f) := Next(s, e);
    s.(lanes := Lanes(s.lanes.sources[e.i := source], s.lanes.forwarders[e.i := f],
                      if e.Deliver? then s.lanes.accepted + [(e.i, source.data[source.sent - 1])] else s.lanes.accepted),
       results := if e.Report? then s.results + [e.i] else s.results,
       stop := s.stop || e.QuitCancelled?)
  }

  function Apply(s: State, e: Event): State
    requires Enabled(s, e)
  {
    if IsForwarders(e) then Forward(s, e)
    else match e
      case ReadResult =>
        var result := s.lanes.forwarders[s.results[0]].result;
        Conclude(Popped(s, result), result)
      case SeeStop =>
        var seen := First(s.err, if s.cancelled then Some(Cancelled) else None);
        s.(terminal := First(s.terminal, seen), told := true, coordinator := s.coordinator.(watchStop := false))
      case SeeDone =>
        s.(terminal := First(s.terminal, Some(Cancelled)), stop := true, told := true, coordinator := s.coordinator.(watchDone := false))
      case LeaveLoop => s.(coordinator := Joining, told := s.told || s.stop)
      case Finish =>
        var failure := First(s.terminal, if s.cancelled then Some(Cancelled) else None);
        s.(coordinator := Ending(failure), err := First(s.err, failure))
      case Close => s.(coordinator := Ended(s.coordinator.failure), stop := true, closed := true)
      case Crash => s.(coordinator := Crashed, err := First(s.err, Some(Panicked)), stop := true, told := true, meddled := true)
      case OwnerRecord(text) => s.(err := First(s.err, Some(FromOwner(text))), meddled := true)
      case OwnerStop => s.(stop := true, meddled := true)
      case OwnerClose => s.(closed := true)
      case Cancel => s.(cancelled := true)
  }

  ghost predicate Path(s: State, events: seq<Event>, t: State)
    decreases |events|
  {
    if events == [] then s == t else Enabled(s, events[0]) && Path(Apply(s, events[0]), events[1..], t)
  }

  ghost predicate Reachable(s: State)
  {
    exists n: nat, events :: Path(Init(n), events, s)
  }

  // ---------------------------------------------------------------- values

  /** The values of one source among those accepted. */
  function Project(accepted: seq<(nat, int)>, i: nat): seq<int>
  {
    if accepted == [] then []
    else
      var last := accepted[|accepted| - 1];
      Project(accepted[..|accepted| - 1], i) + if last.0 == i then [last.1] else []
  }

  /** The forwarder has at most one value in hand, and loses one only when told to stop. */
  ghost predicate ForwarderOk(s: State, i: nat)
    requires i < |s.lanes.sources| && i < |s.lanes.forwarders|
  {
    var source, f := s.lanes.sources[i], s.lanes.forwarders[i];
    && source.sent <= source.taken <= |source.data|
    && Project(s.lanes.accepted, i) == source.data[..source.sent]
    && (source.err.Some? ==> source.ended && source.err.value.FromSource?)
    && (f.Top? || f.Waiting? ==> source.taken == source.sent)
    && (f.Sending? || f.Delivering? ==> source.taken == source.sent + 1)
    && (f.Delivering? ==> !s.closed)
    && (f == Reporting(None) || f == Reported(None) ==>
          s.stop || s.stopForwarders || (source.ended && source.sent == |source.data|))
  }

  ghost predicate ForwardersOk(s: State)
  {
    && |s.lanes.forwarders| == |s.lanes.sources|
    && (forall i :: 0 <= i < |s.lanes.sources| ==> ForwarderOk(s, i))
    && (forall k :: 0 <= k < |s.lanes.accepted| ==> s.lanes.accepted[k].0 < |s.lanes.sources|)
    && (s.closed ==> s.stop)
  }

  /** Where the coordinator may go without reading a result. */
  predicate Moves(from: Coordinator, to: Coordinator)
  {
    match to
    case Loop(remaining, _, _) => from.Loop? && remaining == from.remaining
    case Crashed => true
    case Joining => from == to || (from.Loop? && from.remaining == 0)
    case Ending(_) => from == to || from.Joining?
    case Ended(failure) => from == to || (from.Ending? && from.failure == failure)
  }

  lemma ConcludeLeaves(s: State, result: Option<Error>)
    ensures var s' := Conclude(s, result);
      && s'.lanes == s.lanes && s'.closed == s.closed && s'.meddled == s.meddled
      && (s.stopForwarders ==> s'.stopForwarders) && (s.terminal.Some? ==> s'.terminal.Some?) && (s.stop ==> s'.stop)
  {
  }

  lemma ReadLeaves(s: State)
    requires Enabled(s, ReadResult)
    ensures var s' := Apply(s, ReadResult);
      && s'.lanes == s.lanes && s'.closed == s.closed && s'.meddled == s.meddled
      && (s.stopForwarders ==> s'.stopForwarders) && (s.terminal.Some? ==> s'.terminal.Some?) && (s.stop ==> s'.stop)
  {
    var result := s.lanes.forwarders[s.results[0]].result;
    ConcludeLeaves(Popped(s, result), result);
    hide Conclude;
  }

  /** What the coordinator and the owner leave alone. */
  lemma OthersLeave(s: State, e: Event)
    requires Enabled(s, e) && !IsForwarders(e)
    ensures Apply(s, e).lanes == s.lanes
  {
    if e.ReadResult? { ReadLeaves(s); }
    hide NobodyDelivers, First, Conclude, Popped, Forward;
  }

  lemma OthersAdvance(s: State, e: Event)
    requires Enabled(s, e) && !IsForwarders(e)
    ensures var s' := Apply(s, e); (s.stopForwarders ==> s'.stopForwarders) && (s.terminal.Some? ==> s'.terminal.Some?) && (s.stop ==> s'.stop) && (s.meddled ==> s'.meddled)
  {
    if e.ReadResult? { ReadLeaves(s); }
    hide NobodyDelivers, Conclude, Popped, Forward;
  }

  lemma CoordinatorMoves(s: State, e: Event)
    requires Enabled(s, e) && !IsForwarders(e) && !e.ReadResult?
    ensures Moves(s.coordinator, Apply(s, e).coordinator)
  {
    hide NobodyDelivers, First, Conclude, Popped, Forward;
  }

  lemma OthersReadNothing(s: State, e: Event)
    requires Enabled(s, e) && !IsForwarders(e) && !e.ReadResult?
    ensures var s' := Apply(s, e);
      && s'.results == s.results && s'.read == s.read && s'.firstBad == s.firstBad
      && s'.stopForwarders == s.stopForwarders && Moves(s.coordinator, s'.coordinator)
  {
    CoordinatorMoves(s, e);
    hide NobodyDelivers, First, Conclude, Popped, Forward, Moves;
  }

  lemma OthersClose(s: State, e: Event)
    requires Enabled(s, e) && !IsForwarders(e) && (s.closed ==> s.stop)
    ensures var s' := Apply(s, e); s'.closed ==> s'.stop && (s.closed || NobodyDelivers(s))
  {
    if e.ReadResult? { ReadLeaves(s); }
    hide First, Conclude, Popped, Forward;
  }

  /** What the forwarders and sources leave alone. */
  lemma ForwardersLeave(s: State, e: Event)
    requires Enabled(s, e) && IsForwarders(e)
    ensures var s' := Apply(s, e);
      && s'.coordinator == s.coordinator && s'.terminal == s.terminal && s'.read == s.read && s'.firstBad == s.firstBad
      && s'.meddled == s.meddled && s'.cancelled == s.cancelled && s'.err == s.err && s'.stopForwarders == s.stopForwarders
      && (s'.stop == s.stop || s.cancelled) && s'.told == s.told
  {
  }

  lemma NextOfReported(s: State, e: Event)
    requires Enabled(s, e) && IsForwarders(e) && s.lanes.forwarders[e.i].Reported?
    ensures var (source, f) := Next(s, e);
      && f == s.lanes.forwarders[e.i]
      && (s.lanes.sources[e.i].ended ==> source.ended && source.data == s.lanes.sources[e.i].data && source.sent == s.lanes.sources[e.i].sent)
  {
  }

  /** Reported forwarders stay, and so do the values of a source that ended before its forwarder
      reported. */
  ghost predicate ReportedSame(before: Lanes, after: Lanes)
    requires |before.forwarders| == |before.sources|
  {
    && |after.forwarders| == |before.forwarders| && |after.sources| == |before.sources|
    && forall i :: 0 <= i < |before.forwarders| && before.forwarders[i].Reported? ==>
         && after.forwarders[i] == before.forwarders[i]
         && (before.sources[i].ended ==> after.sources[i].ended && after.sources[i].data == before.sources[i].data
                                         && after.sources[i].sent == before.sources[i].sent)
  }

  lemma ReportedStays(s: State, e: Event)
    requires Enabled(s, e) && IsForwarders(e) && |s.lanes.forwarders| == |s.lanes.sources|
    ensures ReportedSame(s.lanes, Apply(s, e).lanes)
  {
    var (source, f) := Next(s, e);
    if s.lanes.forwarders[e.i].Reported? { NextOfReported(s, e); }
    LaneSame(s.lanes, Apply(s, e).lanes, e.i, source, f);
  }

  lemma LaneSame(before: Lanes, after: Lanes, i: nat, source: Source, f: Forwarder)
    requires |before.forwarders| == |before.sources| && i < |before.sources|
    requires after.sources == before.sources[i := source] && after.forwarders == before.forwarders[i := f]
    requires before.forwarders[i].Reported? ==> f == before.forwarders[i]
    requires before.forwarders[i].Reported? && before.sources[i].ended ==>
      source.ended && source.data == before.sources[i].data && source.sent == before.sources[i].sent
    ensures ReportedSame(before, after)
  {
  }

  lemma DeliverKeepsForwarders(s: State, i: nat)
    requires ForwardersOk(s) && Enabled(s, Deliver(i))
    ensures ForwardersOk(Apply(s, Deliver(i)))
  {
    var s' := Apply(s, Deliver(i));
    assert ForwarderOk(s, i);
    assert s'.lanes.accepted[..|s.lanes.accepted|] == s.lanes.accepted;
    var source := s.lanes.sources[i];
    assert source.data[..source.sent + 1] == source.data[..source.sent] + [source.data[source.sent]];
    forall j | 0 <= j < |s'.lanes.sources| ensures ForwarderOk(s', j) {
      assert ForwarderOk(s, j);
      assert Project(s.lanes.accepted, j) + [] == Project(s.lanes.accepted, j);
    }
  }

  lemma ProduceKeepsForwarders(s: State, i: nat, v: int)
    requires ForwardersOk(s) && Enabled(s, Produce(i, v))
    ensures ForwardersOk(Apply(s, Produce(i, v)))
  {
    var s' := Apply(s, Produce(i, v));
    assert ForwarderOk(s, i);
    assert (s.lanes.sources[i].data + [v])[..s.lanes.sources[i].sent] == s.lanes.sources[i].data[..s.lanes.sources[i].sent];
    forall j | 0 <= j < |s'.lanes.sources| ensures ForwarderOk(s', j) { assert ForwarderOk(s, j); }
  }

  lemma MoveKeepsForwarders(s: State, e: Event)
    requires ForwardersOk(s) && Enabled(s, e) && IsForwarders(e) && !e.Deliver? && !e.Produce?
    ensures ForwardersOk(Apply(s, e))
  {
    var s' := Apply(s, e);
    forall j | 0 <= j < |s'.lanes.sources| ensures ForwarderOk(s', j) { assert ForwarderOk(s, j); }
  }

  lemma SameForwarders(s: State, s': State)
    requires ForwardersOk(s) && s'.lanes.forwarders == s.lanes.forwarders && s'.lanes.sources == s.lanes.sources && s'.lanes.accepted == s.lanes.accepted
    requires (s.stop ==> s'.stop) && (s.stopForwarders ==> s'.stopForwarders)
    requires s'.closed ==> s'.stop && (s.closed || NobodyDelivers(s))
    ensures ForwardersOk(s')
  {
    forall j | 0 <= j < |s'.lanes.sources| ensures ForwarderOk(s', j) { assert ForwarderOk(s, j); }
  }

  lemma OthersKeepForwarders(s: State, e: Event)
    requires ForwardersOk(s) && Enabled(s, e) && !IsForwarders(e)
    ensures ForwardersOk(Apply(s, e))
  {
    OthersLeave(s, e);
    OthersAdvance(s, e);
    OthersClose(s, e);
    hide ForwardersOk, Apply, Enabled, NobodyDelivers;
    SameForwarders(s, Apply(s, e));
  }

  lemma StepKeepsForwarders(s: State, e: Event)
    requires ForwardersOk(s) && Enabled(s, e)
    ensures ForwardersOk(Apply(s, e))
  {
    hide ForwardersOk;
    if e.Deliver? { DeliverKeepsForwarders(s, e.i); }
    else if e.Produce? { ProduceKeepsForwarders(s, e.i, e.value); }
    else if IsForwarders(e) { MoveKeepsForwarders(s, e); }
    else { OthersKeepForwarders(s, e); }
  }

  // ---------------------------------------------------------------- reports

  /** Each forwarder reports once; a report is in the channel or was read. */
  ghost predicate ReportsOk(s: State)
  {
    && |s.lanes.forwarders| == |s.lanes.sources|
    && (forall i: nat :: i < |s.lanes.forwarders| && s.lanes.forwarders[i].Reported? <==> i in s.results || i in s.read)
    && (forall i :: i in s.results ==> i !in s.read)
    && (forall j, k :: 0 <= j < k < |s.results| ==> s.results[j] != s.results[k])
    && match s.coordinator
      case Loop(remaining, _, _) => remaining + |s.read| == |s.lanes.sources|
      case Crashed => true
      case _ => |s.read| == |s.lanes.sources|
  }

  lemma ReportKeepsReports(s: State, i: nat)
    requires ReportsOk(s) && Enabled(s, Report(i))
    ensures ReportsOk(Apply(s, Report(i)))
  {
    var s' := Apply(s, Report(i));
    assert i !in s.results && i !in s.read;
    forall j ensures j in s'.results <==> j in s.results || j == i {}
    forall j, k | 0 <= j < k < |s'.results| ensures s'.results[j] != s'.results[k] {
      if k == |s.results| { assert s'.results[j] in s.results; }
    }
  }

  lemma ReadKeepsReports(s: State, result: Option<Error>)
    requires ReportsOk(s) && s.coordinator.Loop? && s.coordinator.remaining > 0 && s.results != []
    ensures ReportsOk(Popped(s, result))
  {
    var s' := Popped(s, result);
    var r := s.results[0];
    assert s.results == [r] + s'.results && r in s.results;
    forall j ensures j in s.results <==> j == r || j in s'.results {}
    forall j, k | 0 <= j < k < |s'.results| ensures s'.results[j] != s'.results[k] {
      assert s'.results[j] == s.results[j + 1] && s'.results[k] == s.results[k + 1];
    }
    forall j | 0 <= j < |s'.results| ensures s'.results[j] != r { assert s'.results[j] == s.results[j + 1]; }
    assert r !in s'.results;
    assert |s'.read| == |s.read| + 1;
  }

  lemma SameReports(s: State, s': State)
    requires ReportsOk(s) && s'.results == s.results && s'.read == s.read && |s'.lanes.sources| == |s.lanes.sources|
    requires |s'.lanes.forwarders| == |s.lanes.forwarders| && forall i :: 0 <= i < |s.lanes.forwarders| ==> (s'.lanes.forwarders[i].Reported? <==> s.lanes.forwarders[i].Reported?)
    requires Moves(s.coordinator, s'.coordinator)
    ensures ReportsOk(s')
  {
  }

  lemma ForwardersKeepReports(s: State, e: Event)
    requires ReportsOk(s) && Enabled(s, e) && IsForwarders(e)
    ensures ReportsOk(Apply(s, e))
  {
    if e.Report? { ReportKeepsReports(s, e.i); } else { SameReports(s, Apply(s, e)); }
  }

  lemma OthersKeepReports(s: State, e: Event)
    requires ReportsOk(s) && Enabled(s, e) && !IsForwarders(e) && !e.ReadResult?
    ensures ReportsOk(Apply(s, e))
  {
    OthersLeave(s, e);
    OthersReadNothing(s, e);
    hide ReportsOk, Apply, Enabled, Moves;
    SameReports(s, Apply(s, e));
  }

  lemma ResultKeepsReports(s: State)
    requires ReportsOk(s) && Enabled(s, ReadResult)
    ensures ReportsOk(Apply(s, ReadResult))
  {
    var result := s.lanes.forwarders[s.results[0]].result;
    assert Apply(s, ReadResult) == Conclude(Popped(s, result), result);
    hide ReportsOk, Apply;
    ReadKeepsReports(s, result);
    ConcludeReadsNothing(Popped(s, result), result);
    hide Conclude, Enabled, Popped;
    SameReports(Popped(s, result), Conclude(Popped(s, result), result));
  }

  lemma ConcludeReadsNothing(s: State, result: Option<Error>)
    ensures var s' := Conclude(s, result);
      s'.lanes == s.lanes && s'.results == s.results && s'.read == s.read && s'.coordinator == s.coordinator && Moves(s.coordinator, s'.coordinator)
  {
  }

  lemma StepKeepsReports(s: State, e: Event)
    requires ReportsOk(s) && Enabled(s, e)
    ensures ReportsOk(Apply(s, e))
  {
    hide ReportsOk, Apply;
    if IsForwarders(e) { ForwardersKeepReports(s, e); }
    else if e.ReadResult? { ResultKeepsReports(s); }
    else { OthersKeepReports(s, e); }
  }

  // ---------------------------------------------------------------- outcomes

  ghost predicate AllReported(s: State)
  {
    forall i :: 0 <= i < |s.lanes.forwarders| ==> s.lanes.forwarders[i].Reported?
  }

  /** Every source ended and all its values were delivered. */
  ghost predicate LanesExact(lanes: Lanes)
  {
    forall i :: 0 <= i < |lanes.sources| ==> lanes.sources[i].ended && lanes.sources[i].sent == |lanes.sources[i].data|
  }

  ghost predicate Exact(s: State)
  {
    LanesExact(s.lanes)
  }

  predicate Finished(s: State)
  {
    s.coordinator.Ending? || s.coordinator.Ended?
  }

  function Failure(s: State): Option<Error>
  {
    if Finished(s) then s.coordinator.failure else None
  }

  /** A failure read makes the terminal error, and the first one read was reported by a forwarder. */
  ghost predicate BadOk(s: State)
  {
    && (s.stopForwarders ==> s.terminal.Some?)
    && (forall i :: i in s.read && i < |s.lanes.forwarders| && s.lanes.forwarders[i].Reported? && s.lanes.forwarders[i].result.Some? ==> s.terminal.Some? && s.firstBad.Some?)
    && (s.firstBad.Some? ==> exists i :: 0 <= i < |s.lanes.forwarders| && s.lanes.forwarders[i] == Reported(s.firstBad))
  }

  /** Left alone and not cancelled, the merge stops only when it ends, and its terminal error is the
      first failure it read. */
  ghost predicate AloneOk(s: State)
  {
    && (s.stop ==> s.meddled || s.cancelled || s.coordinator.Ended?)
    && (!s.meddled ==> s.err == Failure(s))
    && (!s.meddled && !s.cancelled ==> s.terminal == s.firstBad && (Finished(s) ==> Failure(s) == s.firstBad))
  }

  ghost predicate EndOk(s: State)
  {
    && (Finished(s) ==> AllReported(s))
    && (Finished(s) && Failure(s) == None ==> s.meddled || Exact(s))
  }

  lemma ReadKeepsBad(s: State)
    requires ReportsOk(s) && BadOk(s) && Enabled(s, ReadResult)
    ensures BadOk(Apply(s, ReadResult))
  {
    hide ReportsOk;
    var r := s.results[0];
    var result := s.lanes.forwarders[r].result;
    assert s.lanes.forwarders[r] == Reported(result);
    var s' := Popped(s, result);
    assert s'.lanes.forwarders == s.lanes.forwarders;
    if s'.firstBad.Some? {
      assert exists i :: 0 <= i < |s.lanes.forwarders| && s.lanes.forwarders[i] == Reported(s'.firstBad);
    }
  }

  lemma ForwardersKeepBad(s: State, e: Event)
    requires ReportsOk(s) && BadOk(s) && Enabled(s, e) && IsForwarders(e)
    ensures BadOk(Apply(s, e))
  {
    ForwardersLeave(s, e);
    ReportedStays(s, e);
    hide Apply, Enabled;
    ReportedStay(s, Apply(s, e));
  }

  lemma ReportedStay(s: State, s': State)
    requires ReportsOk(s) && BadOk(s) && ReportedSame(s.lanes, s'.lanes)
    requires s'.read == s.read && s'.firstBad == s.firstBad && (s.terminal.Some? ==> s'.terminal.Some?) && (s'.stopForwarders ==> s.stopForwarders)
    ensures BadOk(s')
  {
    if s.firstBad.Some? {
      var i :| 0 <= i < |s.lanes.forwarders| && s.lanes.forwarders[i] == Reported(s.firstBad);
      assert s'.lanes.forwarders[i] == Reported(s.firstBad);
    }
    forall i | i in s.read && i < |s.lanes.forwarders| && s'.lanes.forwarders[i].Reported? ensures s.lanes.forwarders[i].Reported? {}
  }

  lemma OthersKeepBad(s: State, e: Event)
    requires ReportsOk(s) && BadOk(s) && Enabled(s, e) && !IsForwarders(e) && !e.ReadResult?
    ensures BadOk(Apply(s, e))
  {
    OthersLeave(s, e);
    OthersAdvance(s, e);
    OthersReadNothing(s, e);
    hide Apply, Enabled, ReportsOk, BadOk, Moves;
    ReportedStay(s, Apply(s, e));
  }

  lemma StepKeepsBad(s: State, e: Event)
    requires ReportsOk(s) && BadOk(s) && Enabled(s, e)
    ensures BadOk(Apply(s, e))
  {
    hide ReportsOk, BadOk;
    if IsForwarders(e) { ForwardersKeepBad(s, e); }
    else if e.ReadResult? { ReadKeepsBad(s); }
    else { OthersKeepBad(s, e); }
  }

  lemma ForwardersKeepAlone(s: State, e: Event)
    requires AloneOk(s) && Enabled(s, e) && IsForwarders(e)
    ensures AloneOk(Apply(s, e))
  {
    ForwardersLeave(s, e);
    hide Apply, Enabled;
  }

  lemma ReadKeepsAlone(s: State)
    requires BadOk(s) && AloneOk(s) && Enabled(s, ReadResult)
    ensures AloneOk(Apply(s, ReadResult))
  {
  }

  lemma OthersKeepAlone(s: State, e: Event)
    requires AloneOk(s) && Enabled(s, e) && !IsForwarders(e) && !e.ReadResult?
    ensures AloneOk(Apply(s, e))
  {
  }

  lemma StepKeepsAlone(s: State, e: Event)
    requires BadOk(s) && AloneOk(s) && Enabled(s, e)
    ensures AloneOk(Apply(s, e))
  {
    hide BadOk, AloneOk;
    if IsForwarders(e) { ForwardersKeepAlone(s, e); }
    else if e.ReadResult? { ReadKeepsAlone(s); }
    else { OthersKeepAlone(s, e); }
  }

  lemma FinishIsExact(s: State)
    requires ForwardersOk(s) && ReportsOk(s) && BadOk(s) && AloneOk(s) && Enabled(s, Finish)
    ensures s.terminal == None && !s.cancelled && !s.meddled ==> Exact(s)
  {
    BelowAll(s.read, |s.lanes.sources|);
    if s.terminal == None && !s.cancelled && !s.meddled {
      forall i | 0 <= i < |s.lanes.sources| ensures s.lanes.sources[i].ended && s.lanes.sources[i].sent == |s.lanes.sources[i].data| {
        assert ForwarderOk(s, i) && i in s.read && s.lanes.forwarders[i].Reported?;
      }
    }
  }

  lemma FinishedStays(s: State, s': State)
    requires ForwardersOk(s) && EndOk(s) && (Finished(s') ==> Finished(s) && Failure(s') == Failure(s) && (s.meddled ==> s'.meddled))
    requires ReportedSame(s.lanes, s'.lanes)
    ensures EndOk(s')
  {
    hide ForwarderOk;
  }

  lemma ForwardersKeepEnd(s: State, e: Event)
    requires ForwardersOk(s) && EndOk(s) && Enabled(s, e) && IsForwarders(e)
    ensures EndOk(Apply(s, e))
  {
    ForwardersLeave(s, e);
    ReportedStays(s, e);
    hide ForwardersOk, EndOk, Apply, Enabled;
    FinishedStays(s, Apply(s, e));
  }

  lemma OthersKeepEnd(s: State, e: Event)
    requires ForwardersOk(s) && EndOk(s) && Enabled(s, e) && !IsForwarders(e) && !e.Finish?
    ensures EndOk(Apply(s, e))
  {
    OthersLeave(s, e);
    OthersAdvance(s, e);
    NoNewEnd(s, e);
    hide ForwardersOk, EndOk, Apply, Enabled;
    FinishedStays(s, Apply(s, e));
  }

  lemma NoNewEnd(s: State, e: Event)
    requires Enabled(s, e) && !IsForwarders(e) && !e.Finish?
    ensures Finished(Apply(s, e)) ==> Finished(s) && Failure(Apply(s, e)) == Failure(s)
  {
  }

  lemma StepKeepsEnd(s: State, e: Event)
    requires ForwardersOk(s) && ReportsOk(s) && BadOk(s) && AloneOk(s) && EndOk(s) && Enabled(s, e)
    ensures EndOk(Apply(s, e))
  {
    hide ForwardersOk, ReportsOk, BadOk, AloneOk;
    if IsForwarders(e) { ForwardersKeepEnd(s, e); }
    else if e.Finish? { FinishIsExact(s); }
    else { OthersKeepEnd(s, e); }
  }

  // ---------------------------------------------------------------- results

  ghost predicate Inv(s: State)
  {
    ForwardersOk(s) && ReportsOk(s) && BadOk(s) && AloneOk(s) && EndOk(s)
  }

  lemma InitInv(n: nat)
    ensures Inv(Init(n))
  {
    assert Exact(Init(0));
    forall i | 0 <= i < n ensures ForwarderOk(Init(n), i) {}
  }

  lemma StepKeeps(s: State, e: Event)
    requires Inv(s) && Enabled(s, e)
    ensures Inv(Apply(s, e))
  {
    hide ForwardersOk, ReportsOk, BadOk, AloneOk, EndOk;
    StepKeepsForwarders(s, e);
    StepKeepsReports(s, e);
    StepKeepsBad(s, e);
    StepKeepsAlone(s, e);
    StepKeepsEnd(s, e);
  }

  lemma {:induction false} PathKeeps(s: State, events: seq<Event>, t: State)
    requires Inv(s) && Path(s, events, t)
    ensures Inv(t)
    decreases |events|
  {
    hide Inv;
    if events != [] {
      StepKeeps(s, events[0]);
      PathKeeps(Apply(s, events[0]), events[1..], t);
    }
  }

  lemma ReachableInv(s: State)
    requires Reachable(s)
    ensures Inv(s)
  {
    var n: nat, events :| Path(Init(n), events, s);
    InitInv(n);
    PathKeeps(Init(n), events, s);
  }

  /** No forwarder is ever at the closed merged channel. */
  lemma NoSendOnClosedChannel(s: State, i: nat)
    requires Reachable(s) && i < |s.lanes.forwarders| && s.lanes.forwarders[i].Delivering?
    ensures !s.closed && i < |s.lanes.sources| && s.lanes.sources[i].sent < |s.lanes.sources[i].data|
  {
    ReachableInv(s);
    assert ForwarderOk(s, i);
  }

  /** On its normal path the coordinator comes to close the merged pump only after every forwarder
      has reported, and every report was read. */
  lemma ClosesAfterForwarders(s: State)
    requires Reachable(s) && Finished(s)
    ensures forall i: nat :: i < |s.lanes.sources| ==> i < |s.lanes.forwarders| && s.lanes.forwarders[i].Reported? && i in s.read
  {
    ReachableInv(s);
    BelowAll(s.read, |s.lanes.sources|);
  }

  /** Each source's values come out in its order, without gaps. */
  lemma SourceOrderKept(s: State, i: nat)
    requires Reachable(s) && i < |s.lanes.sources|
    ensures Project(s.lanes.accepted, i) <= s.lanes.sources[i].data
    ensures |s.lanes.sources[i].data| >= s.lanes.sources[i].taken >= |Project(s.lanes.accepted, i)|
  {
    ReachableInv(s);
    assert ForwarderOk(s, i);
  }

  /** A merge that ends without error, and was not stopped or failed by its owner, is an exact
      interleaving of all its sources. */
  lemma NilEndIsExact(s: State)
    requires Reachable(s) && s.coordinator == Ended(None) && !s.meddled
    ensures forall i :: 0 <= i < |s.lanes.sources| ==> s.lanes.sources[i].ended && Project(s.lanes.accepted, i) == s.lanes.sources[i].data
    ensures forall k :: 0 <= k < |s.lanes.accepted| ==> s.lanes.accepted[k].0 < |s.lanes.sources|
  {
    ReachableInv(s);
    forall i | 0 <= i < |s.lanes.sources| ensures s.lanes.sources[i].ended && Project(s.lanes.accepted, i) == s.lanes.sources[i].data {
      assert ForwarderOk(s, i);
      assert s.lanes.sources[i].data[..|s.lanes.sources[i].data|] == s.lanes.sources[i].data;
    }
  }

  /** Not stopped, failed or cancelled, the merged pump ends with the first failure read, and there
      is one exactly when a forwarder reported one. */
  lemma FirstFailureWins(s: State)
    requires Reachable(s) && s.coordinator.Ended? && !s.meddled && !s.cancelled
    ensures s.err == s.firstBad
    ensures s.err.Some? <==> exists i :: 0 <= i < |s.lanes.forwarders| && s.lanes.forwarders[i].Reported? && s.lanes.forwarders[i].result.Some?
  {
    ReachableInv(s);
    BelowAll(s.read, |s.lanes.sources|);
  }

  /** The report channel always has room. */
  lemma ReportNeverBlocks(s: State, i: nat)
    requires Reachable(s) && i < |s.lanes.forwarders| && s.lanes.forwarders[i].Reporting?
    ensures Enabled(s, Report(i))
  {
    ReachableInv(s);
    QueuedAreOthers(s, i);
    RoomForOne(s.results, i, |s.lanes.sources|);
  }

  lemma QueuedAreOthers(s: State, i: nat)
    requires ReportsOk(s) && i < |s.lanes.forwarders| && s.lanes.forwarders[i].Reporting?
    ensures i < |s.lanes.sources| && i !in s.results && (forall r :: r in s.results ==> r < |s.lanes.sources|)
    ensures forall j, k :: 0 <= j < k < |s.results| ==> s.results[j] != s.results[k]
  {
    assert forall r :: r in s.results ==> r < |s.lanes.forwarders| && s.lanes.forwarders[r].Reported?;
  }

  lemma RoomForOne(list: seq<nat>, i: nat, n: nat)
    requires i < n && i !in list && (forall r :: r in list ==> r < n)
    requires forall j, k :: 0 <= j < k < |list| ==> list[j] != list[k]
    ensures |list| < n
  {
    DistinctSize(list);
    BelowSize(Elements(list) + {i}, n);
  }

  /** The stop channel of the forwarders is closed at most once. */
  lemma StopForwardersClosedOnce(s: State)
    requires Reachable(s) && Enabled(s, ReadResult) && s.stopForwarders
    ensures Apply(s, ReadResult).terminal == s.terminal && s.terminal.Some?
  {
    ReachableInv(s);
  }

  // ---------------------------------------------------------------- telling the sources

  /** The owner records an error in the running merge only after it has signalled stop. */
  ghost predicate Announced(s: State, events: seq<Event>)
    decreases |events|
  {
    events == [] || (Enabled(s, events[0]) && MayStep(s, events[0]) && Announced(Apply(s, events[0]), events[1..]))
  }

  predicate MayStep(s: State, e: Event)
  {
    e.OwnerRecord? && s.coordinator.Loop? ==> s.stop
  }

  /** The merge is over, and its sources were told to stop or have nothing left. */
  predicate Over(s: State)
  {
    s.coordinator.Ended? || s.coordinator.Crashed?
  }

  ghost predicate ToldOrExact(s: State)
  {
    s.told || LanesExact(s.lanes)
  }

  ghost predicate TellOk(s: State)
  {
    && (s.stopForwarders ==> s.told) && (s.coordinator.Crashed? ==> s.told)
    && (s.coordinator.Loop? && s.err.Some? ==> s.stop)
    && (s.coordinator.Loop? && s.terminal.Some? ==> s.told || s.stop)
    && (!s.coordinator.Loop? && !s.told ==> AllReported(s) && LanesExact(s.lanes))
  }

  /** When the last report was read and nothing went wrong, every source was delivered in full. */
  lemma LeavingIsExact(s: State)
    requires ForwardersOk(s) && ReportsOk(s) && BadOk(s) && Enabled(s, LeaveLoop)
    requires !s.stop && !s.stopForwarders && s.terminal == None
    ensures AllReported(s) && LanesExact(s.lanes)
  {
    BelowAll(s.read, |s.lanes.sources|);
    forall i | 0 <= i < |s.lanes.sources|
      ensures s.lanes.forwarders[i].Reported? && s.lanes.sources[i].ended && s.lanes.sources[i].sent == |s.lanes.sources[i].data|
    {
      assert ForwarderOk(s, i) && i in s.read && s.lanes.forwarders[i].Reported?;
    }
  }

  lemma ExactStays(before: Lanes, after: Lanes)
    requires |before.forwarders| == |before.sources| && ReportedSame(before, after) && LanesExact(before)
    requires forall i :: 0 <= i < |before.forwarders| ==> before.forwarders[i].Reported?
    ensures LanesExact(after) && forall i :: 0 <= i < |after.forwarders| ==> after.forwarders[i].Reported?
  {
  }

  lemma ForwardersKeepTell(s: State, e: Event)
    requires |s.lanes.forwarders| == |s.lanes.sources| && TellOk(s) && Enabled(s, e) && IsForwarders(e)
    ensures TellOk(Apply(s, e))
  {
    ForwardersLeave(s, e);
    ReportedStays(s, e);
    if !s.coordinator.Loop? && !s.told { ExactStays(s.lanes, Apply(s, e).lanes); }
    assert s.stop ==> Apply(s, e).stop;
    hide Apply, Enabled, ReportedSame, LanesExact;
  }

  lemma OthersKeepTell(s: State, e: Event)
    requires ForwardersOk(s) && ReportsOk(s) && BadOk(s) && TellOk(s) && Enabled(s, e) && !IsForwarders(e) && MayStep(s, e)
    ensures TellOk(Apply(s, e))
  {
    OthersLeave(s, e);
    if e.LeaveLoop? && !s.stop && !s.told { LeavingIsExact(s); }
    hide ForwardersOk, ReportsOk, BadOk, LanesExact, NobodyDelivers;
  }

  lemma StepKeepsTell(s: State, e: Event)
    requires Inv(s) && TellOk(s) && Enabled(s, e) && MayStep(s, e)
    ensures TellOk(Apply(s, e))
  {
    assert |s.lanes.forwarders| == |s.lanes.sources|;
    hide ForwardersOk, ReportsOk, BadOk, AloneOk, EndOk, TellOk;
    if IsForwarders(e) { ForwardersKeepTell(s, e); } else { OthersKeepTell(s, e); }
  }

  lemma {:induction false} PathTells(s: State, events: seq<Event>, t: State)
    requires Inv(s) && TellOk(s) && Path(s, events, t) && Announced(s, events)
    ensures TellOk(t)
    decreases |events|
  {
    hide Inv, TellOk, Apply, Enabled;
    if events != [] {
      StepKeeps(s, events[0]);
      StepKeepsTell(s, events[0]);
      PathTells(Apply(s, events[0]), events[1..], t);
    }
  }

  lemma TellAtFirst(n: nat)
    ensures TellOk(Init(n))
  {
  }

  /** An owner that signals stop before it records an error, or does neither, never leaves a source in the
      dark: when the merge is over, failed or not, the sources were told to stop, unless all of them ended
      and everything was delivered. */
  lemma SourcesAreTold(n: nat, events: seq<Event>, s: State)
    requires Path(Init(n), events, s) && Announced(Init(n), events) && Over(s)
    ensures s.told || forall i :: 0 <= i < |s.lanes.sources| ==>
      s.lanes.sources[i].ended && Project(s.lanes.accepted, i) == s.lanes.sources[i].data
  {
    InitInv(n);
    TellAtFirst(n);
    PathKeeps(Init(n), events, s);
    PathTells(Init(n), events, s);
    if !s.told {
      forall i | 0 <= i < |s.lanes.sources| ensures s.lanes.sources[i].ended && Project(s.lanes.accepted, i) == s.lanes.sources[i].data {
        assert ForwarderOk(s, i);
        assert s.lanes.sources[i].data[..|s.lanes.sources[i].data|] == s.lanes.sources[i].data;
      }
    }
  }

  /** The sources of a merge are told in every run, whatever its owner does, exactly when it has none; and
      in every run of an owner that signals stop before it records an error, always. */
  lemma SourcesAreToldExactly(n: nat, hasty: bool)
    ensures (forall events, s :: Path(Init(n), events, s) && (hasty || Announced(Init(n), events)) && Over(s) ==> ToldOrExact(s)) <==>
      !hasty || n == 0
  {
    hide Path, Announced, Over;
    if !hasty || n == 0 {
      forall events, s | Path(Init(n), events, s) && (hasty || Announced(Init(n), events)) && Over(s) ensures ToldOrExact(s) {
        if n == 0 { NoSources(events, s); } else { ToldInRun(n, events, s); }
      }
    } else {
      var events, s := OwnerFailureLeavesSources(n, "");
      assert Over(s) by { OverWhenEnded(s); }
      NotToldNotExact(s);
    }
  }

  lemma ToldInRun(n: nat, events: seq<Event>, s: State)
    requires Path(Init(n), events, s) && Announced(Init(n), events) && Over(s)
    ensures ToldOrExact(s)
  {
    InitInv(n);
    TellAtFirst(n);
    PathTells(Init(n), events, s);
  }

  lemma OverWhenEnded(s: State)
    requires s.coordinator.Ended?
    ensures Over(s)
  {
  }

  lemma NotToldNotExact(s: State)
    requires !s.told && |s.lanes.sources| > 0 && !s.lanes.sources[0].ended
    ensures !ToldOrExact(s)
  {
  }

  lemma {:induction false} SourcesStay(s: State, events: seq<Event>, t: State)
    requires Path(s, events, t)
    ensures |t.lanes.sources| == |s.lanes.sources|
    decreases |events|
  {
    if events != [] {
      if !IsForwarders(events[0]) { OthersLeave(s, events[0]); }
      SourcesStay(Apply(s, events[0]), events[1..], t);
    }
  }

  lemma NoSources(events: seq<Event>, s: State)
    requires Path(Init(0), events, s)
    ensures ToldOrExact(s)
  {
    SourcesStay(Init(0), events, s);
  }

  // ---------------------------------------------------------------- the run in which no source is told

  function Below(m: nat): (r: set<nat>)
    ensures m !in r && forall i: nat :: i in r ==> i < m
  {
    if m == 0 then {} else Below(m - 1) + {m - 1}
  }

  /** After the owner recorded an error: the first `k` of `n` forwarders have panicked and reported, and the
      coordinator has read `m` of their reports. */
  function Left(n: nat, text: string, k: nat, m: nat, coordinator: Coordinator): State
    requires m <= k <= n
  {
    State(Lanes(seq(n, _ => Source([], false, None, 0, 0)), seq(n, i => if i < k then Reported(Some(Panicked)) else Top), []),
          seq(k - m, i requires 0 <= i < k - m => m + i), coordinator,
          if m == 0 then None else Some(FromOwner(text)), false, false, false, false, false, Some(FromOwner(text)),
          Below(m), if m == 0 then None else Some(Panicked), true)
  }

  lemma OwnerRecords(n: nat, text: string)
    requires n > 0
    ensures Enabled(Init(n), OwnerRecord(text)) && Apply(Init(n), OwnerRecord(text)) == Left(n, text, 0, 0, Loop(n, true, true))
  {
    var s, t := Apply(Init(n), OwnerRecord(text)), Left(n, text, 0, 0, Loop(n, true, true));
    assert s.lanes.forwarders == t.lanes.forwarders && s.lanes.sources == t.lanes.sources && s.read == t.read && s.results == t.results;
  }

  lemma PanicOne(n: nat, text: string, k: nat)
    requires k < n
    ensures var s, t := Left(n, text, k, 0, Loop(n, true, true)), Left(n, text, k + 1, 0, Loop(n, true, true));
      Enabled(s, Panic(k)) && Enabled(Apply(s, Panic(k)), Report(k)) && Apply(Apply(s, Panic(k)), Report(k)) == t
  {
    var s, t := Left(n, text, k, 0, Loop(n, true, true)), Left(n, text, k + 1, 0, Loop(n, true, true));
    var u := Apply(s, Panic(k));
    assert u.lanes.forwarders == s.lanes.forwarders[k := Reporting(Some(Panicked))] && u.lanes.sources == s.lanes.sources && u.results == s.results;
    var v := Apply(u, Report(k));
    assert v.lanes.forwarders == t.lanes.forwarders && v.lanes.sources == t.lanes.sources && v.results == t.results;
  }

  lemma ReadOne(n: nat, text: string, m: nat)
    requires m < n
    ensures var s, t := Left(n, text, n, m, Loop(n - m, true, true)), Left(n, text, n, m + 1, Loop(n - m - 1, true, true));
      Enabled(s, ReadResult) && Apply(s, ReadResult) == t
  {
    var s, t := Left(n, text, n, m, Loop(n - m, true, true)), Left(n, text, n, m + 1, Loop(n - m - 1, true, true));
    assert s.results[0] == m && s.results[1..] == t.results;
    assert s.read + {m} == t.read;
  }

  lemma {:induction false} PanicAll(n: nat, text: string, k: nat) returns (events: seq<Event>)
    requires k <= n
    ensures Path(Left(n, text, k, 0, Loop(n, true, true)), events, Left(n, text, n, 0, Loop(n, true, true)))
    decreases n - k
  {
    events := [];
    if k < n {
      PanicOne(n, text, k);
      events := PanicAll(n, text, k + 1);
      var s, t := Left(n, text, k, 0, Loop(n, true, true)), Left(n, text, n, 0, Loop(n, true, true));
      hide Apply, Enabled, Left;
      PathStep(Apply(s, Panic(k)), Report(k), events, t);
      events := [Report(k)] + events;
      PathStep(s, Panic(k), events, t);
      events := [Panic(k)] + events;
    }
  }

  lemma {:induction false} ReadAll(n: nat, text: string, m: nat) returns (events: seq<Event>)
    requires m <= n
    ensures Path(Left(n, text, n, m, Loop(n - m, true, true)), events, Left(n, text, n, n, Loop(0, true, true)))
    decreases n - m
  {
    events := [];
    if m < n {
      ReadOne(n, text, m);
      events := ReadAll(n, text, m + 1);
      hide Apply, Enabled, Left;
      PathStep(Left(n, text, n, m, Loop(n - m, true, true)), ReadResult, events, Left(n, text, n, n, Loop(0, true, true)));
      events := [ReadResult] + events;
    }
  }

  lemma MergeEnds(n: nat, text: string)
    requires n > 0
    ensures var s, e := Left(n, text, n, n, Loop(0, true, true)), Some(FromOwner(text));
      && Enabled(s, LeaveLoop) && Apply(s, LeaveLoop) == Left(n, text, n, n, Joining)
      && Enabled(Left(n, text, n, n, Joining), Finish) && Apply(Left(n, text, n, n, Joining), Finish) == Left(n, text, n, n, Ending(e))
      && Enabled(Left(n, text, n, n, Ending(e)), Close)
      && Apply(Left(n, text, n, n, Ending(e)), Close) == Left(n, text, n, n, Ended(e)).(stop := true, closed := true)
  {
  }

  /** For every number of sources: when the owner has recorded an error but not yet signalled stop, and the
      forwarders panic just then, the merge ends with the owner's error and none of its sources, all of them
      still producing, was told. */
  lemma OwnerFailureLeavesSources(n: nat, text: string) returns (events: seq<Event>, s: State)
    requires n > 0
    ensures Path(Init(n), events, s) && s.coordinator == Ended(Some(FromOwner(text))) && !s.told
    ensures |s.lanes.sources| == n && forall i :: 0 <= i < n ==> !s.lanes.sources[i].ended
  {
    var failure := Some(FromOwner(text));
    s := Left(n, text, n, n, Ended(failure)).(stop := true, closed := true);
    OwnerRecords(n, text);
    MergeEnds(n, text);
    var panics := PanicAll(n, text, 0);
    var reading := ReadAll(n, text, 0);
    hide Apply, Enabled, Left;
    var ending := [LeaveLoop, Finish, Close];
    PathStep(Left(n, text, n, n, Ending(failure)), Close, [], s);
    PathStep(Left(n, text, n, n, Joining), Finish, [Close], s);
    PathStep(Left(n, text, n, n, Loop(0, true, true)), LeaveLoop, [Finish, Close], s);
    PathJoin(Left(n, text, n, 0, Loop(n, true, true)), reading, Left(n, text, n, n, Loop(0, true, true)), ending, s);
    PathJoin(Left(n, text, 0, 0, Loop(n, true, true)), panics, Left(n, text, n, 0, Loop(n, true, true)), reading + ending, s);
    events := [OwnerRecord(text)] + (panics + (reading + ending));
    PathStep(Init(n), OwnerRecord(text), panics + (reading + ending), s);
  }

  lemma {:induction false} PathJoin(s: State, first: seq<Event>, t: State, second: seq<Event>, u: State)
    requires Path(s, first, t) && Path(t, second, u)
    ensures Path(s, first + second, u)
    decreases |first|
  {
    hide Apply, Enabled;
    if first == [] {
      assert first + second == second;
    } else {
      PathJoin(Apply(s, first[0]), first[1..], t, second, u);
      assert (first + second)[1..] == first[1..] + second;
    }
  }

  lemma PathStep(s: State, e: Event, events: seq<Event>, t: State)
    requires Enabled(s, e) && Path(Apply(s, e), events, t)
    ensures Path(s, [e] + events, t)
  {
    hide Apply, Enabled;
    assert ([e] + events)[1..] == events;
  }
}
