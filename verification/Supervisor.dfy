/** The supervisor's run loop and the children it restarts, as steps of one system.

    The loop and every child generation run concurrently.  A child publishes one result to a
    bounded buffer and then closes its done channel; the loop reads results, decides, joins
    children and starts replacements.  A publish blocks while the buffer is full. */
module Supervisor {
  import Policy

  datatype Strategy = OneForOne | OneForAll | RestForOne

  datatype Config = Config(strategy: Strategy, enabled: seq<bool>, max: nat, window: nat)
  {
    function Size(): nat { |enabled| }

    /** The result buffer. */
    function Capacity(): nat { 2 * |enabled| + 1 }
  }

  /** One generation of the child in slot `index`, and the tag its result carries. */
  datatype Child = Child(index: nat, generation: nat)

  datatype Slot = Slot(active: bool, generation: nat)

  /** Where the run loop is.  Lists are in declaration order; joins take them from the end. */
  datatype Phase =
    | Starting(pending: seq<nat>)
    | Selecting
    | Joining(index: nat)
    | Quiescing(failed: nat, waiting: seq<nat>, affected: seq<nat>)
    | BackingOff(affected: seq<nat>)
    | Stopping(waiting: seq<nat>)
    | Returned

  datatype State = State(
    slots: seq<Slot>,
    running: set<Child>,    // goroutines that have not published yet
    closing: set<Child>,    // published, done not closed yet
    results: seq<Child>,    // the buffer
    phase: Phase,
    cancelled: bool,
    uses: seq<int>,         // the restart intensity budget
    asked: seq<int>,        // history: when that budget was asked
    restarted: seq<int>,    // history: when a restart was decided
    consumed: set<Child>)   // history: results taken from the buffer
  {
    predicate Live(c: Child) { c in running || c in closing }

    predicate Latest(c: Child) { c.index < |slots| && slots[c.index].generation == c.generation }

    /** The generation tag and active flag a received result is checked against. */
    predicate Current(c: Child) { Latest(c) && slots[c.index].active }

    predicate Ended(i: nat) { i < |slots| && !Live(Child(i, slots[i].generation)) }

    /** The slots a restart still has to start. */
    function Pending(): seq<nat>
    {
      match phase
      case Starting(p) => p
      case Quiescing(_, _, a) => a
      case BackingOff(a) => a
      case _ => []
    }

    predicate Serving() { !phase.Stopping? && !phase.Returned? }

    /** Unread results and those still to come. */
    function Load(): nat { |results| + |running| + |Pending()| }
  }

  /** What the loop makes of a current result: the action of its outcome policy, with every way
      to give up (fatal, cancelled, escalated, the child's own budget spent) in `Fail`. */
  datatype Verdict = Stop | Fail | Restart

  datatype Event =
    | Publish(child: Child)
    | Close(child: Child)
    | Start(reconstructed: bool)
    | Cancel
    | Receive(verdict: Verdict, now: int)
    | StopAll(drop: bool)
    | Join
    | Wake
    | Return

  predicate Affects(strategy: Strategy, failed: nat, i: nat)
  {
    match strategy
    case OneForOne => i == failed
    case OneForAll => true
    case RestForOne => i >= failed
  }

  /** The active slots from `from` on that a failure selects, in declaration order. */
  function Affected(strategy: Strategy, slots: seq<Slot>, failed: nat, from: nat := 0): seq<nat>
    requires from <= |slots|
    decreases |slots| - from
  {
    if from == |slots| then []
    else
      var first := if slots[from].active && Affects(strategy, failed, from) then [from] else [];
      first + Affected(strategy, slots, failed, from + 1)
  }

  function ActiveSlots(slots: seq<Slot>): seq<nat>
  {
    Affected(OneForAll, slots, 0)
  }

  predicate HasActive(slots: seq<Slot>)
  {
    exists i :: 0 <= i < |slots| && slots[i].active
  }

  function Begin(pending: seq<nat>): Phase
  {
    if pending == [] then Selecting else Starting(pending)
  }

  function Stopped(slots: seq<Slot>): Phase
  {
    var waiting := ActiveSlots(slots);
    if waiting == [] then Returned else Stopping(waiting)
  }

  function Init(c: Config): State
  {
    var slots := seq(c.Size(), i requires 0 <= i < c.Size() => Slot(c.enabled[i], 0));
    State(slots, {}, {}, [], Begin(ActiveSlots(slots)), false, [], [], [], {})
  }

  predicate Enabled(c: Config, s: State, e: Event)
  {
    match e
    case Publish(ch) => ch in s.running && |s.results| < c.Capacity()
    case Close(ch) => ch in s.closing
    case Start(ok) =>
      s.phase.Starting? && s.phase.pending != [] && s.phase.pending[0] < |s.slots| && (ok || |s.results| < c.Capacity())
    case Cancel => true
    case Receive(verdict, now) =>
      && s.phase.Selecting? && !s.cancelled && HasActive(s.slots) && s.results != []
      && (s.asked != [] ==> s.asked[|s.asked| - 1] <= now)
    case StopAll(drop) => (s.phase.Selecting? && s.cancelled && (drop ==> s.results != [])) || (s.phase.BackingOff? && !drop)
    case Join =>
      match s.phase {
        case Joining(i) => s.Ended(i)
        case Quiescing(_, w, _) => w != [] && s.Ended(w[|w| - 1])
        case Stopping(w) => w != [] && s.Ended(w[|w| - 1])
        case _ => false
      }
    case Wake => s.phase.BackingOff?
    case Return => s.phase.Selecting? && !HasActive(s.slots)
  }

  function Take(s: State): State
    requires s.results != []
  {
    s.(results := s.results[1..], consumed := s.consumed + {s.results[0]})
  }

  function BeginStop(s: State): State
  {
    s.(phase := Stopped(s.slots))
  }

  function Retire(s: State, i: nat): State
    requires i < |s.slots|
  {
    s.(slots := s.slots[i := s.slots[i].(active := false)], phase := Joining(i))
  }

  predicate Admits(c: Config, s: State, now: int)
  {
    Policy.Consume(s.uses, now, c.max, c.window).1
  }

  function Ask(c: Config, s: State, now: int): State
  {
    s.(uses := Policy.Consume(s.uses, now, c.max, c.window).0, asked := s.asked + [now],
       restarted := if Admits(c, s, now) then s.restarted + [now] else s.restarted)
  }

  function Quiesce(c: Config, s: State, failed: nat): State
  {
    var affected := Affected(c.strategy, s.slots, failed);
    s.(phase := Quiescing(failed, affected, affected))
  }

  /** A received result: dropped unless it is current, otherwise decided on. */
  function Decide(c: Config, s: State, verdict: Verdict, now: int): State
    requires s.results != []
  {
    var child := s.results[0];
    if !s.Current(child) then Take(s)
    else match verdict
      case Fail => BeginStop(Take(s))
      case Stop => Retire(Take(s), child.index)
      case Restart => if Admits(c, s, now) then Quiesce(c, Ask(c, Take(s), now), child.index) else BeginStop(Ask(c, Take(s), now))
  }

  function StartNext(s: State, ok: bool): State
    requires s.phase.Starting? && s.phase.pending != [] && s.phase.pending[0] < |s.slots|
  {
    var i := s.phase.pending[0];
    var child := Child(i, s.slots[i].generation + 1);
    var begun := s.(slots := s.slots[i := s.slots[i].(generation := child.generation)], phase := Begin(s.phase.pending[1..]));
    if ok then begun.(running := s.running + {child}) else begun.(results := s.results + [child])
  }

  function Joined(c: Config, s: State): State
    requires Enabled(c, s, Join)
  {
    match s.phase
    case Quiescing(f, w, a) => s.(phase := if |w| == 1 then BackingOff(a) else Quiescing(f, w[..|w| - 1], a))
    case Stopping(w) =>
      var i := w[|w| - 1];
      s.(slots := s.slots[i := s.slots[i].(active := false)],
         phase := if |w| == 1 then Returned else Stopping(w[..|w| - 1]))
    case _ => s.(phase := Selecting)
  }

  function Apply(c: Config, s: State, e: Event): State
    requires Enabled(c, s, e)
  {
    match e
    case Publish(ch) => s.(running := s.running - {ch}, closing := s.closing + {ch}, results := s.results + [ch])
    case Close(ch) => s.(closing := s.closing - {ch})
    case Start(ok) => StartNext(s, ok)
    case Cancel => s.(cancelled := true)
    case Receive(verdict, now) => Decide(c, s, verdict, now)
    case StopAll(drop) => BeginStop(if drop then Take(s) else s)
    case Join => Joined(c, s)
    case Wake => s.(phase := Begin(s.phase.affected))
    case Return => s.(phase := Returned)
  }

  /** `events` lead from `s` to `t`. */
  ghost predicate Path(c: Config, s: State, events: seq<Event>, t: State)
    decreases |events|
  {
    if events == [] then s == t
    else Enabled(c, s, events[0]) && Path(c, Apply(c, s, events[0]), events[1..], t)
  }

  ghost predicate Reachable(c: Config, s: State)
  {
    exists events :: Path(c, Init(c), events, s)
  }

  // ---------------------------------------------------------------- generations

  predicate Ascending(list: seq<nat>)
  {
    forall i, j :: 0 <= i < j < |list| ==> list[i] < list[j]
  }

  lemma {:induction false} AffectedIs(strategy: Strategy, slots: seq<Slot>, failed: nat, from: nat)
    requires from <= |slots|
    ensures var a := Affected(strategy, slots, failed, from);
      && Ascending(a)
      && (forall i :: i in a <==> from <= i < |slots| && slots[i].active && Affects(strategy, failed, i))
    decreases |slots| - from
  {
    if from < |slots| {
      AffectedIs(strategy, slots, failed, from + 1);
      var rest, all := Affected(strategy, slots, failed, from + 1), Affected(strategy, slots, failed, from);
      if all == [from] + rest { Prepend(rest, from, all); } else { assert all == rest; }
    }
  }

  lemma Prepend(rest: seq<nat>, x: nat, all: seq<nat>)
    requires Ascending(rest) && (forall i :: i in rest ==> x < i) && all == [x] + rest
    ensures Ascending(all) && forall i :: i in all <==> i == x || i in rest
  {
    forall i, j | 0 <= i < j < |all| ensures all[i] < all[j] {
      assert all[j] == rest[j - 1] && rest[j - 1] in rest;
    }
  }

  predicate Issued(s: State, ch: Child)
  {
    ch.index < |s.slots| && 1 <= ch.generation <= s.slots[ch.index].generation
  }

  /** Every generation ever started is in exactly one place: still to publish, in the buffer once,
      or consumed; the live ones are the latest of their slots. */
  ghost predicate Accounted(s: State)
  {
    && (forall ch :: Issued(s, ch) <==> ch in s.running || ch in s.results || ch in s.consumed)
    && (forall ch :: ch in s.running ==> ch !in s.results && ch !in s.consumed && ch !in s.closing)
    && (forall ch :: ch in s.results ==> ch !in s.consumed)
    && (forall i, j :: 0 <= i < j < |s.results| ==> s.results[i] != s.results[j])
    && (forall ch :: s.Live(ch) ==> Issued(s, ch) && s.Latest(ch))
  }

  ghost predicate ListOk(s: State, list: seq<nat>)
  {
    Ascending(list) && forall i :: i in list ==> i < |s.slots| && s.slots[i].active
  }

  /** Which slots may have a live child in each phase. */
  ghost predicate PhaseOk(s: State)
  {
    && (forall ch :: s.Live(ch) ==> ch.index < |s.slots| && (s.slots[ch.index].active || s.phase == Joining(ch.index)))
    && ListOk(s, s.Pending())
    && match s.phase
      case Starting(p) => p != [] && forall i :: i in p ==> s.Ended(i)
      case Selecting => true
      case Joining(i) => i < |s.slots| && Child(i, s.slots[i].generation) !in s.running
      case Quiescing(_, w, a) => w != [] && w <= a && forall i :: i in a && i !in w ==> s.Ended(i)
      case BackingOff(a) => a != [] && forall i :: i in a ==> s.Ended(i)
      case Stopping(w) => w != [] && ListOk(s, w) && forall i :: 0 <= i < |s.slots| && s.slots[i].active ==> i in w
      case Returned => forall i :: 0 <= i < |s.slots| ==> !s.slots[i].active
  }

  ghost predicate BudgetOk(c: Config, asked: seq<int>, uses: seq<int>, restarted: seq<int>)
  {
    Policy.NonDecreasing(asked) && uses == Policy.Uses(asked, c.max, c.window) && restarted == Policy.Admitted(asked, c.max, c.window)
  }

  ghost predicate SlotsOk(c: Config, s: State)
  {
    |s.slots| == c.Size() && forall i :: 0 <= i < |s.slots| && s.slots[i].active ==> c.enabled[i]
  }

  ghost predicate Basic(c: Config, s: State)
  {
    SlotsOk(c, s) && Accounted(s) && PhaseOk(s) && BudgetOk(c, s.asked, s.uses, s.restarted)
  }

  lemma InitBasic(c: Config)
    ensures Basic(c, Init(c))
  {
    var s := Init(c);
    AffectedIs(OneForAll, s.slots, 0, 0);
    hide Affected;
    assert s.Pending() == ActiveSlots(s.slots);
    assert forall ch :: !s.Live(ch);
    assert forall ch :: !Issued(s, ch);
    assert BudgetOk(c, s.asked, s.uses, s.restarted);
    hide BudgetOk;
  }

  lemma StopPhase(s: State, t: State, w: seq<nat>)
    requires PhaseOk(s) && !s.phase.Joining? && ListOk(s, w)
    requires forall i :: 0 <= i < |s.slots| && s.slots[i].active ==> i in w
    requires t == s.(phase := if w == [] then Returned else Stopping(w))
    ensures PhaseOk(t)
  {
    assert Ascending([]);
    hide Ascending;
    assert forall ch :: t.Live(ch) <==> s.Live(ch);
  }

  lemma BeginStopKeeps(c: Config, s: State)
    requires Basic(c, s) && !s.phase.Joining?
    ensures Basic(c, BeginStop(s))
  {
    hide BudgetOk, PhaseOk;
    var t := BeginStop(s);
    SameAccounted(s, t);
    hide Accounted;
    AffectedIs(OneForAll, s.slots, 0, 0);
    hide Affected, Ascending;
    StopPhase(s, t, ActiveSlots(s.slots));
  }

  predicate SameGenerations(s: State, t: State)
  {
    |t.slots| == |s.slots| && forall i :: 0 <= i < |s.slots| ==> t.slots[i].generation == s.slots[i].generation
  }

  lemma SameAccounted(s: State, t: State)
    requires Accounted(s) && SameGenerations(s, t)
    requires t.results == s.results && t.consumed == s.consumed && t.running == s.running && t.closing <= s.closing
    ensures Accounted(t)
  {
    assert forall ch :: Issued(t, ch) <==> Issued(s, ch);
    assert forall ch :: t.Live(ch) ==> s.Live(ch);
  }

  lemma TakeAccounted(s: State, t: State)
    requires Accounted(s) && SameGenerations(s, t) && s.results != []
    requires t.results == s.results[1..] && t.consumed == s.consumed + {s.results[0]}
    requires t.running == s.running && t.closing == s.closing
    ensures Accounted(t)
  {
    assert s.results == [s.results[0]] + t.results;
    assert forall ch :: Issued(t, ch) <==> Issued(s, ch);
    forall i, j | 0 <= i < j < |t.results| ensures t.results[i] != t.results[j] {
      assert s.results[i + 1] != s.results[j + 1];
    }
    forall i | 0 <= i < |t.results| ensures t.results[i] != s.results[0] { assert s.results[i + 1] != s.results[0]; }
    assert forall ch :: t.Live(ch) <==> s.Live(ch);
  }

  lemma PublishAccounted(s: State, t: State, ch: Child)
    requires Accounted(s) && ch in s.running && SameGenerations(s, t)
    requires t.running == s.running - {ch} && t.closing == s.closing + {ch}
    requires t.results == s.results + [ch] && t.consumed == s.consumed
    ensures Accounted(t)
  {
    assert forall d :: Issued(t, d) <==> Issued(s, d);
    assert s.Live(ch);
    assert forall d :: t.Live(d) <==> s.Live(d);
    assert forall d :: d in t.results <==> d in s.results || d == ch;
    forall i, j | 0 <= i < j < |t.results| ensures t.results[i] != t.results[j] { assert t.results[i] in s.results; }
  }

  lemma TakeKeeps(c: Config, s: State)
    requires Basic(c, s) && s.results != []
    ensures Basic(c, Take(s))
  {
    hide BudgetOk;
    var t := Take(s);
    TakeAccounted(s, t);
    hide Accounted;
    assert forall ch :: t.Live(ch) <==> s.Live(ch);
    assert t.Pending() == s.Pending();
  }

  lemma AskKeeps(c: Config, s: State, now: int)
    requires Basic(c, s) && (s.asked != [] ==> s.asked[|s.asked| - 1] <= now)
    ensures Basic(c, Ask(c, s, now))
  {
    hide Policy.Consume;
    var t := Ask(c, s, now);
    assert t.asked[..|t.asked| - 1] == s.asked;
    SameAccounted(s, t);
    hide Accounted;
    assert forall ch :: t.Live(ch) <==> s.Live(ch);
    assert t.Pending() == s.Pending();
  }

  lemma RetireKeeps(c: Config, s: State, i: nat)
    requires Basic(c, s) && s.phase.Selecting? && i < |s.slots| && Child(i, s.slots[i].generation) !in s.running
    ensures Basic(c, Retire(s, i))
  {
    hide BudgetOk;
    var t := Retire(s, i);
    SameAccounted(s, t);
    assert forall ch :: t.Live(ch) <==> s.Live(ch);
    hide Accounted;
  }

  lemma QuiescePhase(s: State, t: State, i: nat, a: seq<nat>)
    requires PhaseOk(s) && s.phase.Selecting? && ListOk(s, a) && a != []
    requires t == s.(phase := Quiescing(i, a, a))
    ensures PhaseOk(t)
  {
    hide Ascending;
    assert forall ch :: t.Live(ch) <==> s.Live(ch);
  }

  lemma QuiesceKeeps(c: Config, s: State, i: nat)
    requires Basic(c, s) && s.phase.Selecting? && i < |s.slots| && s.slots[i].active
    ensures Basic(c, Quiesce(c, s, i))
  {
    hide BudgetOk, PhaseOk;
    var t := Quiesce(c, s, i);
    SameAccounted(s, t);
    hide Accounted;
    AffectedIs(c.strategy, s.slots, i, 0);
    assert i in Affected(c.strategy, s.slots, i);
    hide Affected, Ascending, Affects;
    QuiescePhase(s, t, i, t.phase.affected);
  }

  lemma ReceiveKeepsBasic(c: Config, s: State, verdict: Verdict, now: int)
    requires Basic(c, s) && Enabled(c, s, Receive(verdict, now))
    ensures Basic(c, Decide(c, s, verdict, now))
  {
    var i := s.results[0].index;
    TakeKeeps(c, s);
    if s.Current(s.results[0]) {
      assert s.results[0] in s.results && s.results[0] !in s.running;
      hide Accounted, SlotsOk, BudgetOk, PhaseOk;
      if verdict.Restart? {
        AskKeeps(c, Take(s), now);
        if Admits(c, s, now) { QuiesceKeeps(c, Ask(c, Take(s), now), i); } else { BeginStopKeeps(c, Ask(c, Take(s), now)); }
      } else if verdict.Stop? {
        RetireKeeps(c, Take(s), i);
      } else {
        BeginStopKeeps(c, Take(s));
      }
    }
  }

  lemma StartKeepsAccounted(c: Config, s: State, ok: bool)
    requires Basic(c, s) && Enabled(c, s, Start(ok))
    ensures Accounted(Apply(c, s, Start(ok)))
  {
    var t := Apply(c, s, Start(ok));
    var i := s.phase.pending[0];
    var child := Child(i, s.slots[i].generation + 1);
    assert !Issued(s, child);
    assert forall ch :: Issued(t, ch) <==> Issued(s, ch) || ch == child;
    assert i in s.Pending() && s.Ended(i);
    assert ok ==> t.results == s.results;
  }

  lemma SplitFirst(p: seq<nat>)
    requires p != [] && Ascending(p)
    ensures forall i :: i in p <==> i == p[0] || i in p[1..]
    ensures p[0] !in p[1..] && Ascending(p[1..])
  {
    assert p == [p[0]] + p[1..];
    assert forall j :: 0 <= j < |p[1..]| ==> p[1..][j] == p[j + 1] && p[0] < p[j + 1];
  }

  lemma StartKeepsPhase(c: Config, s: State, ok: bool)
    requires Basic(c, s) && Enabled(c, s, Start(ok))
    ensures PhaseOk(StartNext(s, ok))
    ensures StartNext(s, ok).Pending() == s.Pending()[1..]
  {
    hide Accounted, BudgetOk;
    var t := StartNext(s, ok);
    var p := s.phase.pending;
    SplitFirst(p);
    hide Ascending;
    assert p[0] in s.Pending();
    assert forall k :: k in p[1..] ==> s.Ended(k) && t.Ended(k);
  }

  lemma SplitLast(w: seq<nat>)
    requires w != [] && Ascending(w)
    ensures forall i :: i in w <==> i == w[|w| - 1] || i in w[..|w| - 1]
    ensures w[|w| - 1] !in w[..|w| - 1] && Ascending(w[..|w| - 1])
  {
    assert w == w[..|w| - 1] + [w[|w| - 1]];
  }

  lemma QuiesceJoinedPhase(s: State, t: State)
    requires PhaseOk(s) && s.phase.Quiescing? && s.phase.waiting != []
    requires var w := s.phase.waiting;
      && s.Ended(w[|w| - 1])
      && t == s.(phase := if |w| == 1 then BackingOff(s.phase.affected) else Quiescing(s.phase.failed, w[..|w| - 1], s.phase.affected))
    ensures PhaseOk(t)
  {
    assert forall ch :: t.Live(ch) <==> s.Live(ch);
    var w := s.phase.waiting;
    var rest := w[..|w| - 1];
    assert t.Pending() == s.Pending();
    assert Ascending(w) && rest <= s.phase.affected;
    SplitLast(w);
    hide Ascending;
  }

  lemma StopJoinedPhase(s: State, t: State)
    requires PhaseOk(s) && s.phase.Stopping? && s.phase.waiting != []
    requires forall ch :: s.Live(ch) ==> s.Latest(ch)
    requires var w := s.phase.waiting;
      && s.Ended(w[|w| - 1])
      && t == s.(slots := s.slots[w[|w| - 1] := s.slots[w[|w| - 1]].(active := false)],
                 phase := if |w| == 1 then Returned else Stopping(w[..|w| - 1]))
    ensures PhaseOk(t)
  {
    assert forall ch :: t.Live(ch) <==> s.Live(ch);
    var w := s.phase.waiting;
    assert t.Pending() == [] && Ascending([]);
    SplitLast(w);
    hide Ascending;
  }

  lemma JoinKeepsPhase(c: Config, s: State)
    requires Basic(c, s) && Enabled(c, s, Join)
    ensures PhaseOk(Apply(c, s, Join))
  {
    var t := Joined(c, s);
    if s.phase.Quiescing? {
      hide Accounted, PhaseOk, BudgetOk;
      QuiesceJoinedPhase(s, t);
    } else if s.phase.Stopping? {
      assert forall ch :: s.Live(ch) ==> s.Latest(ch);
      hide Accounted, PhaseOk, BudgetOk;
      StopJoinedPhase(s, t);
    } else {
      assert forall ch :: t.Live(ch) <==> s.Live(ch);
    }
  }

  lemma JoinKeepsBasic(c: Config, s: State)
    requires Basic(c, s) && Enabled(c, s, Join)
    ensures Basic(c, Apply(c, s, Join))
  {
    JoinKeepsPhase(c, s);
    hide PhaseOk, BudgetOk;
    SameAccounted(s, Joined(c, s));
  }

  /** The steps of the children, and those of the loop that only move it on. */
  lemma MoveKeepsBasic(c: Config, s: State, e: Event)
    requires Basic(c, s) && Enabled(c, s, e) && (e.Publish? || e.Close? || e.Cancel? || e.Wake? || e.Return?)
    ensures Basic(c, Apply(c, s, e))
  {
    hide BudgetOk;
    var t := Apply(c, s, e);
    if e.Publish? { PublishAccounted(s, t, e.child); } else { SameAccounted(s, t); }
    assert forall d :: t.Live(d) ==> s.Live(d);
    hide Accounted;
    if e.Publish? { assert t.running <= s.running; }
  }

  lemma StepKeepsBasic(c: Config, s: State, e: Event)
    requires Basic(c, s) && Enabled(c, s, e)
    ensures Basic(c, Apply(c, s, e))
  {
    hide BudgetOk, Affected;
    match e
    case Receive(verdict, now) => ReceiveKeepsBasic(c, s, verdict, now);
    case StopAll(drop) =>
      hide Accounted, PhaseOk;
      if drop { TakeKeeps(c, s); BeginStopKeeps(c, Take(s)); } else { BeginStopKeeps(c, s); }
    case Start(ok) =>
      StartKeepsAccounted(c, s, ok);
      StartKeepsPhase(c, s, ok);
      hide Accounted, PhaseOk;
    case Join => JoinKeepsBasic(c, s);
    case _ => MoveKeepsBasic(c, s, e);
  }
}
