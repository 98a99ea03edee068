/** How full the supervisor's result buffer can get.

    A restart makes unread results of the affected slots stale, but they keep their place in the
    buffer while the replacements owe new ones.  The invariant below bounds, for every unread
    result that would still be acted on, what may queue up behind it. */
module SupervisorBuffer {
  import opened Common
  import opened Supervisor
  import Policy

  /** Results of slot `i` in a list. */
  function Count(list: seq<Child>, i: nat): nat
  {
    if list == [] then 0 else (if list[0].index == i then 1 else 0) + Count(list[1..], i)
  }

  function RunningAt(s: State, i: nat): nat
  {
    if i < |s.slots| && Child(i, s.slots[i].generation) in s.running then 1 else 0
  }

  /** Results slot `i` may still add: by its live generation, and by the one a restart will start. */
  function Owed(s: State, i: nat): nat
  {
    RunningAt(s, i) + if i in s.Pending() then 1 else 0
  }

  /** Whether a result would still be acted on when read. */
  predicate Counted(s: State, ch: Child)
  {
    s.Current(ch) && ch.index !in s.Pending()
  }

  ghost predicate CountedAhead(s: State, p: nat, j: nat)
    requires p <= |s.results|
  {
    exists q :: 0 <= q < p && s.results[q].index == j && Counted(s, s.results[q])
  }

  predicate Divides(c: Config, k: nat, i: nat, j: nat)
    requires i < c.Size() && j < c.Size()
  {
    c.enabled[i] && c.enabled[j] && Affects(c.strategy, j, i) && !Affects(c.strategy, j, k)
  }

  /** The slots whose failure restarts `i` and leaves `k` alone. */
  function Dividers(c: Config, k: nat, i: nat): set<nat>
    requires i < c.Size()
  {
    set j | 0 <= j < c.Size() && Divides(c, k, i, j)
  }

  /** What slot `i` may queue behind a result of slot `k` that counts. */
  function Room(c: Config, k: nat, i: nat): nat
    requires i < c.Size()
  {
    if i == k || !c.enabled[i] then 0 else if Dividers(c, k, i) == {} then 1 else |Dividers(c, k, i)|
  }

  ghost function Ahead(c: Config, s: State, p: nat, i: nat): set<nat>
    requires p < |s.results| && i < c.Size()
  {
    set j | j in Dividers(c, s.results[p].index, i) && CountedAhead(s, p, j)
  }

  ghost predicate SlackAt(c: Config, s: State, p: nat, i: nat)
    requires p < |s.results| && i < c.Size()
  {
    Count(s.results[p + 1..], i) + Owed(s, i) + |Ahead(c, s, p, i)| <= Room(c, s.results[p].index, i)
  }

  ghost predicate Slack(c: Config, s: State)
  {
    s.Serving() ==> forall p, i :: 0 <= p < |s.results| && Counted(s, s.results[p]) && 0 <= i < c.Size() ==> SlackAt(c, s, p, i)
  }

  /** While the loop quiesces, the failed slot has published and everything it affects is pending. */
  ghost predicate FailedOk(c: Config, s: State)
  {
    s.phase.Quiescing? ==>
      var f := s.phase.failed;
      && f < |s.slots| && s.slots[f].active && RunningAt(s, f) == 0
      && forall i: nat :: i in s.phase.affected <==> i < |s.slots| && s.slots[i].active && Affects(c.strategy, f, i)
  }

  // ---------------------------------------------------------------- set sizes

  lemma SmallerBy(a: set<nat>, b: set<nat>, gone: set<nat>)
    requires a <= b - gone && gone <= b
    ensures |a| + |gone| <= |b|
  {
    SubsetSize(a, b - gone);
    assert b == (b - gone) + gone;
  }

  // ---------------------------------------------------------------- what a new result finds

  /** Behind a result that was just published: nothing of it is queued, and what its slots still
      owe fits next to the failures ahead of it. */
  lemma NewestSlack(c: Config, s: State, i: nat)
    requires Basic(c, s) && FailedOk(c, s) && s.Serving() && s.results != []
    requires Counted(s, s.results[|s.results| - 1]) && i < c.Size()
    ensures SlackAt(c, s, |s.results| - 1, i)
  {
    var p := |s.results| - 1;
    var k := s.results[p].index;
    var d := Dividers(c, k, i);
    assert s.results[p] in s.results;
    var ahead := Ahead(c, s, p, i);
    if i == k || !c.enabled[i] {
      assert d == {};
      assert ahead == {};
      NothingOwed(c, s, i);
    } else {
      SelfDivides(c, k, i);
      if Owed(s, i) == 2 {
        TwoOwed(c, s, k, i);
        OwedIsNotAhead(c, s, p, i);
        OwedIsNotAhead(c, s, p, s.phase.failed);
        assert |{i, s.phase.failed}| == 2;
        SmallerBy(ahead, d, {i, s.phase.failed});
      } else if Owed(s, i) == 1 && i in d {
        OwedIsNotAhead(c, s, p, i);
        SmallerBy(ahead, d, {i});
      } else {
        SubsetSize(ahead, d);
      }
    }
  }

  lemma NothingOwed(c: Config, s: State, i: nat)
    requires Basic(c, s) && i < c.Size()
    requires !c.enabled[i] || (exists ch :: ch in s.results && Counted(s, ch) && ch.index == i)
    ensures Owed(s, i) == 0
  {
    assert ListOk(s, s.Pending());
    var latest := Child(i, s.slots[i].generation);
    assert s.Live(latest) <==> latest in s.running || latest in s.closing;
  }

  /** A slot that still owes a result has none queued that counts, and neither has a failed one
      that is being quiesced. */
  lemma OwedIsNotAhead(c: Config, s: State, p: nat, i: nat)
    requires Basic(c, s) && p < |s.results| && i < c.Size() && (Owed(s, i) > 0 || i in s.Pending())
    ensures i !in Ahead(c, s, p, i) && !CountedAhead(s, p, i)
  {
    forall q | 0 <= q < p ensures s.results[q] in s.results {}
  }

  /** Whether a slot is its own divider depends on the strategy alone. */
  lemma SelfDivides(c: Config, k: nat, i: nat)
    requires i < c.Size() && i != k && c.enabled[i]
    ensures i in Dividers(c, k, i) || Dividers(c, k, i) == {}
    ensures Room(c, k, i) == if i in Dividers(c, k, i) then |Dividers(c, k, i)| else 1
  {
    if i !in Dividers(c, k, i) {
      forall j | 0 <= j < c.Size() ensures !Divides(c, k, i, j) {}
    }
  }

  /** A slot owes two results only when it is quiesced for the failure of another one. */
  lemma TwoOwed(c: Config, s: State, k: nat, i: nat)
    requires Basic(c, s) && FailedOk(c, s) && s.Serving() && i < c.Size() && k < c.Size()
    requires Owed(s, i) == 2 && s.slots[k].active && k !in s.Pending()
    ensures s.phase.Quiescing? && s.phase.failed != i && s.phase.failed in s.Pending()
    ensures i in Dividers(c, k, i) && s.phase.failed in Dividers(c, k, i)
  {
    assert i in s.Pending() && RunningAt(s, i) == 1;
    assert s.Live(Child(i, s.slots[i].generation));
    assert !s.Ended(i);
    assert Affects(c.strategy, s.phase.failed, s.phase.failed);
  }

  // ---------------------------------------------------------------- every step keeps the slack

  lemma {:induction false} CountAppend(list: seq<Child>, ch: Child, i: nat)
    ensures Count(list + [ch], i) == Count(list, i) + if ch.index == i then 1 else 0
  {
    if list == [] {
      assert list + [ch] == [ch] && [ch][1..] == [];
    } else {
      assert (list + [ch])[1..] == list[1..] + [ch];
      CountAppend(list[1..], ch, i);
    }
  }

  /** A state with the same buffer in which no more results count and no slot owes more. */
  lemma LessSlack(c: Config, s: State, t: State)
    requires Slack(c, s) && s.Serving() && t.Serving() && t.results == s.results
    requires forall ch :: ch in s.results && Counted(t, ch) ==> Counted(s, ch)
    requires forall i: nat :: i < c.Size() ==> Owed(t, i) <= Owed(s, i)
    ensures Slack(c, t)
  {
    hide Counted, Owed, Count, Dividers, Room;
    forall p, i | 0 <= p < |t.results| && Counted(t, t.results[p]) && 0 <= i < c.Size() ensures SlackAt(c, t, p, i) {
      assert t.results[p] in s.results && SlackAt(c, s, p, i);
      FewerAhead(c, s, t, p, i);
    }
  }

  lemma FewerAhead(c: Config, s: State, t: State, p: nat, i: nat)
    requires p < |s.results| && p < |t.results| && i < c.Size() && s.results[..p + 1] == t.results[..p + 1]
    requires forall ch :: ch in s.results && Counted(t, ch) ==> Counted(s, ch)
    ensures |Ahead(c, t, p, i)| <= |Ahead(c, s, p, i)|
  {
    hide Counted, Dividers;
    assert s.results[p] == s.results[..p + 1][p] == t.results[p];
    forall j | j in Ahead(c, t, p, i) ensures j in Ahead(c, s, p, i) {
      var q :| 0 <= q < p && t.results[q].index == j && Counted(t, t.results[q]);
      assert s.results[q] == s.results[..p + 1][q] == t.results[q];
      assert s.results[q] in s.results;
    }
    SubsetSize(Ahead(c, t, p, i), Ahead(c, s, p, i));
  }

  /** A result appended for slot `x`, which owes one less: what was queued keeps its slack. */
  lemma AppendSlack(c: Config, s: State, t: State, ch: Child, p: nat, i: nat)
    requires Slack(c, s) && s.Serving() && t.results == s.results + [ch]
    requires p < |s.results| && Counted(t, s.results[p]) && i < c.Size()
    requires forall d :: d in s.results && Counted(t, d) ==> Counted(s, d)
    requires Owed(t, i) + (if ch.index == i then 1 else 0) == Owed(s, i)
    ensures SlackAt(c, t, p, i)
  {
    hide Counted, Owed, Dividers, Room;
    assert s.results[p] in s.results && SlackAt(c, s, p, i);
    FewerAhead(c, s, t, p, i);
    assert t.results[p + 1..] == s.results[p + 1..] + [ch];
    CountAppend(s.results[p + 1..], ch, i);
  }

  /** The step that adds a result adds it last and takes it off what its slot owed. */
  lemma AppendedSlack(c: Config, s: State, t: State, ch: Child)
    requires Slack(c, s) && s.Serving() && t.Serving() && t.results == s.results + [ch] && Basic(c, t) && FailedOk(c, t)
    requires forall d :: d in s.results && Counted(t, d) ==> Counted(s, d)
    requires forall i: nat :: i < c.Size() ==> Owed(t, i) + (if ch.index == i then 1 else 0) == Owed(s, i)
    ensures Slack(c, t)
  {
    hide Counted, Owed, Count, Dividers, Room, Basic, FailedOk;
    forall p, i | 0 <= p < |t.results| && Counted(t, t.results[p]) && 0 <= i < c.Size() ensures SlackAt(c, t, p, i) {
      if p == |s.results| { NewestSlack(c, t, i); }
      else { assert t.results[p] == s.results[p]; AppendSlack(c, s, t, ch, p, i); }
    }
  }

  lemma PublishKeepsSlack(c: Config, s: State, ch: Child)
    requires Basic(c, s) && FailedOk(c, s) && Slack(c, s) && Enabled(c, s, Publish(ch))
    ensures Slack(c, Apply(c, s, Publish(ch))) && FailedOk(c, Apply(c, s, Publish(ch)))
  {
    var t := Apply(c, s, Publish(ch));
    StepKeepsBasic(c, s, Publish(ch));
    assert s.Live(ch);
    assert t.Pending() == s.Pending();
    assert forall d :: Counted(t, d) <==> Counted(s, d);
    if s.Serving() { AppendedSlack(c, s, t, ch); }
  }

  /** A start turns a result its slot was to owe into one it owes or has published. */
  lemma StartOwed(c: Config, s: State, ok: bool, i: nat)
    requires Basic(c, s) && Enabled(c, s, Start(ok)) && i < c.Size()
    ensures Owed(StartNext(s, ok), i) + (if !ok && s.phase.pending[0] == i then 1 else 0) == Owed(s, i)
  {
    var p := s.Pending();
    StartKeepsPhase(c, s, ok);
    SplitFirst(p);
    assert p[0] in p && s.Ended(p[0]);
    assert !Issued(s, Child(p[0], s.slots[p[0]].generation + 1));
    hide PhaseOk, Ascending;
  }

  lemma StartCounted(c: Config, s: State, ok: bool, d: Child)
    requires Basic(c, s) && Enabled(c, s, Start(ok)) && d in s.results && Counted(StartNext(s, ok), d)
    ensures Counted(s, d)
  {
    assert Issued(s, d);
    var p := s.Pending();
    StartKeepsPhase(c, s, ok);
    SplitFirst(p);
    hide PhaseOk, Ascending;
  }

  lemma StartKeepsSlack(c: Config, s: State, ok: bool)
    requires Basic(c, s) && Slack(c, s) && Enabled(c, s, Start(ok))
    ensures Slack(c, StartNext(s, ok)) && FailedOk(c, StartNext(s, ok))
  {
    var t := StartNext(s, ok);
    StepKeepsBasic(c, s, Start(ok));
    hide Basic, Slack;
    forall d | d in s.results && Counted(t, d) ensures Counted(s, d) { StartCounted(c, s, ok, d); }
    forall i: nat | i < c.Size() ensures Owed(t, i) + (if !ok && s.phase.pending[0] == i then 1 else 0) == Owed(s, i) {
      StartOwed(c, s, ok, i);
    }
    hide Counted, Owed;
    if ok { LessSlack(c, s, t); } else { AppendedSlack(c, s, t, Child(s.phase.pending[0], s.slots[s.phase.pending[0]].generation + 1)); }
  }

  /** What counted ahead of a result stays ahead when the head is read. */
  lemma ReadAhead(c: Config, s: State, t: State, p: nat, i: nat)
    requires s.results != [] && t.results == s.results[1..] && p < |t.results| && i < c.Size()
    requires forall d :: d in t.results && Counted(t, d) ==> Counted(s, d)
    ensures Ahead(c, t, p, i) <= Ahead(c, s, p + 1, i)
  {
    hide Counted, Dividers;
    forall j | j in Ahead(c, t, p, i) ensures j in Ahead(c, s, p + 1, i) {
      var q :| 0 <= q < p && t.results[q].index == j && Counted(t, t.results[q]);
      assert t.results[q] in t.results && s.results[q + 1] == t.results[q];
    }
  }

  lemma TakeKeepsSlack(c: Config, s: State, t: State)
    requires Basic(c, s) && Slack(c, s) && s.phase.Selecting? && t.Serving() && s.results != [] && t.results == s.results[1..]
    requires forall d :: d in t.results && Counted(t, d) ==> Counted(s, d)
    requires forall i: nat :: i < c.Size() ==> Owed(t, i) <= Owed(s, i)
    ensures Slack(c, t)
  {
    hide Counted, Owed, Dividers, Room, Count, Basic;
    forall p, i | 0 <= p < |t.results| && Counted(t, t.results[p]) && 0 <= i < c.Size() ensures SlackAt(c, t, p, i) {
      assert t.results[p] in t.results && t.results[p] == s.results[p + 1];
      assert SlackAt(c, s, p + 1, i);
      assert t.results[p + 1..] == s.results[p + 2..];
      ReadAhead(c, s, t, p, i);
      SubsetSize(Ahead(c, t, p, i), Ahead(c, s, p + 1, i));
    }
  }

  /** Acting on a result frees, for every slot it restarts, the place it held ahead. */
  lemma RestartSlackAt(c: Config, s: State, t: State, p: nat, i: nat)
    requires Basic(c, s) && Slack(c, s) && s.phase.Selecting? && s.results != [] && s.Current(s.results[0])
    requires t.results == s.results[1..] && t.slots == s.slots && t.running == s.running
    requires t.phase == Quiesce(c, s, s.results[0].index).phase
    requires p < |t.results| && Counted(t, t.results[p]) && i < c.Size()
    ensures SlackAt(c, t, p, i)
  {
    var f, k := s.results[0].index, t.results[p].index;
    AffectedIs(c.strategy, s.slots, f, 0);
    hide Affected, Count;
    assert s.results[p + 1] == t.results[p] && Counted(s, s.results[p + 1]) && SlackAt(c, s, p + 1, i);
    assert t.results[p + 1..] == s.results[p + 2..];
    ReadAhead(c, s, t, p, i);
    if i in t.Pending() {
      assert CountedAhead(s, p + 1, f);
      assert f in t.Pending();
      assert f in Ahead(c, s, p + 1, i) && f !in Ahead(c, t, p, i);
      SmallerBy(Ahead(c, t, p, i), Ahead(c, s, p + 1, i), {f});
    } else {
      SubsetSize(Ahead(c, t, p, i), Ahead(c, s, p + 1, i));
    }
  }

  lemma RestartKeepsFailed(c: Config, s: State, t: State)
    requires Basic(c, s) && s.phase.Selecting? && s.results != [] && s.Current(s.results[0])
    requires t.slots == s.slots && t.running == s.running && t.phase == Quiesce(c, s, s.results[0].index).phase
    ensures FailedOk(c, t)
  {
    assert s.results[0] in s.results;
    AffectedIs(c.strategy, s.slots, s.results[0].index, 0);
    hide Affected, Affects, Ascending;
  }

  lemma RestartKeepsSlack(c: Config, s: State, now: int)
    requires Basic(c, s) && Slack(c, s) && Enabled(c, s, Receive(Restart, now)) && s.Current(s.results[0]) && Admits(c, s, now)
    ensures Slack(c, Decide(c, s, Restart, now)) && FailedOk(c, Decide(c, s, Restart, now))
  {
    var t := Decide(c, s, Restart, now);
    hide Policy.Consume, Admits, Basic;
    RestartKeepsFailed(c, s, t);
    hide Affected, Counted, FailedOk;
    forall p, i | 0 <= p < |t.results| && Counted(t, t.results[p]) && 0 <= i < c.Size() ensures SlackAt(c, t, p, i) {
      hide SlackAt;
      RestartSlackAt(c, s, t, p, i);
    }
  }

  lemma MoveKeepsSlack(c: Config, s: State, e: Event)
    requires Basic(c, s) && FailedOk(c, s) && Slack(c, s) && Enabled(c, s, e) && (e.Close? || e.Cancel? || e.Join? || e.Wake?)
    ensures Slack(c, Apply(c, s, e)) && FailedOk(c, Apply(c, s, e))
  {
    hide Basic, Count, Affected;
    var t := Apply(c, s, e);
    if t.Serving() {
      SamePending(c, s, e);
      LessSlack(c, s, t);
    }
  }

  lemma SamePending(c: Config, s: State, e: Event)
    requires Enabled(c, s, e) && (e.Close? || e.Cancel? || e.Join? || e.Wake?) && Apply(c, s, e).Serving()
    ensures Apply(c, s, e).Pending() == s.Pending() && s.Serving()
  {
  }

  lemma ReceiveKeepsSlack(c: Config, s: State, verdict: Verdict, now: int)
    requires Basic(c, s) && Slack(c, s) && Enabled(c, s, Receive(verdict, now))
    ensures Slack(c, Decide(c, s, verdict, now)) && FailedOk(c, Decide(c, s, verdict, now))
  {
    hide Policy.Consume, Count, Affected, Basic;
    var t := Decide(c, s, verdict, now);
    if verdict.Restart? && s.Current(s.results[0]) && Admits(c, s, now) { RestartKeepsSlack(c, s, now); }
    else if t.Serving() { TakeKeepsSlack(c, s, t); }
  }

  lemma StepKeepsSlack(c: Config, s: State, e: Event)
    requires Basic(c, s) && FailedOk(c, s) && Slack(c, s) && Enabled(c, s, e)
    ensures Slack(c, Apply(c, s, e)) && FailedOk(c, Apply(c, s, e))
  {
    hide Basic;
    match e
    case Publish(ch) => PublishKeepsSlack(c, s, ch);
    case Start(ok) => StartKeepsSlack(c, s, ok);
    case Receive(verdict, now) => ReceiveKeepsSlack(c, s, verdict, now);
    case StopAll(_) =>
    case Return =>
    case _ => MoveKeepsSlack(c, s, e);
  }

  // ---------------------------------------------------------------- the total

  /** How many slots in `lo..hi` take part at all. */
  function Taking(c: Config, lo: nat, hi: nat): nat
    requires hi <= c.Size()
    decreases hi - lo
  {
    if lo >= hi then 0 else (if c.enabled[lo] then 1 else 0) + Taking(c, lo + 1, hi)
  }

  function Triangle(x: nat): nat
  {
    if x == 0 then 0 else x + Triangle(x - 1)
  }

  /** The most results that can be unread or owed at once. */
  function Bound(c: Config): nat
  {
    var m := Taking(c, 0, c.Size());
    if c.max == 0 then m
    else match c.strategy
      case OneForOne => m
      case OneForAll => 2 * m
      case RestForOne => Triangle(m)
  }

  lemma {:induction false} TakingSnoc(c: Config, lo: nat, hi: nat)
    requires lo <= hi < c.Size()
    ensures Taking(c, lo, hi + 1) == Taking(c, lo, hi) + if c.enabled[hi] then 1 else 0
    decreases hi - lo
  {
    if lo < hi { TakingSnoc(c, lo + 1, hi); }
  }

  lemma {:induction false} TakingSplit(c: Config, lo: nat, mid: nat, hi: nat)
    requires lo <= mid <= hi <= c.Size()
    ensures Taking(c, lo, hi) == Taking(c, lo, mid) + Taking(c, mid, hi)
    decreases mid - lo
  {
    if lo < mid { TakingSplit(c, lo + 1, mid, hi); }
  }

  function RoomBelow(c: Config, k: nat, x: nat): nat
    requires x <= c.Size()
  {
    if x == 0 then 0 else RoomBelow(c, k, x - 1) + Room(c, k, x - 1)
  }

  function TakingSet(c: Config, lo: nat, hi: nat): set<nat>
    requires hi <= c.Size()
  {
    set j | lo <= j < hi && c.enabled[j]
  }

  lemma {:induction false} TakingSetSize(c: Config, lo: nat, hi: nat)
    requires hi <= c.Size()
    ensures |TakingSet(c, lo, hi)| == Taking(c, lo, hi)
    decreases hi - lo
  {
    if lo >= hi {
      assert TakingSet(c, lo, hi) == {};
    } else {
      TakingSetSize(c, lo + 1, hi);
      var rest := TakingSet(c, lo + 1, hi);
      assert TakingSet(c, lo, hi) == if c.enabled[lo] then {lo} + rest else rest;
    }
  }

  lemma RoomIs(c: Config, k: nat, i: nat)
    requires i < c.Size() && i != k && c.enabled[i]
    ensures Room(c, k, i) == if c.strategy.RestForOne? && k < i then Taking(c, k + 1, i + 1) else 1
  {
    SelfDivides(c, k, i);
    if c.strategy.RestForOne? && k < i {
      TakingSetSize(c, k + 1, i + 1);
      assert i in Dividers(c, k, i);
      assert Dividers(c, k, i) == TakingSet(c, k + 1, i + 1);
    } else if c.strategy.OneForOne? {
      assert Dividers(c, k, i) == {i};
    }
  }

  lemma {:induction false} RoomBelowIs(c: Config, k: nat, x: nat)
    requires x <= c.Size() && k < c.Size() && c.enabled[k]
    ensures RoomBelow(c, k, x) ==
      if x <= k then Taking(c, 0, x)
      else if c.strategy.RestForOne? then Taking(c, 0, k) + Triangle(Taking(c, k + 1, x))
      else Taking(c, 0, x) - 1
  {
    if x > 0 {
      RoomBelowIs(c, k, x - 1);
      TakingSnoc(c, 0, x - 1);
      if x - 1 != k && c.enabled[x - 1] { RoomIs(c, k, x - 1); }
      if x - 1 > k { TakingSnoc(c, k + 1, x - 1); }
    }
  }

  lemma {:induction false} TriangleAbsorbs(a: nat, b: nat)
    requires b > 0
    ensures a + Triangle(b) <= Triangle(a + b)
  {
    if a > 0 { TriangleAbsorbs(a - 1, b); }
  }

  lemma {:induction false} AffectedSize(c: Config, strategy: Strategy, slots: seq<Slot>, failed: nat, from: nat)
    requires |slots| == c.Size() && from <= c.Size()
    requires forall i :: 0 <= i < |slots| && slots[i].active ==> c.enabled[i]
    ensures |Affected(strategy, slots, failed, from)| <=
      match strategy
      case OneForOne => if from <= failed then 1 else 0
      case OneForAll => Taking(c, from, c.Size())
      case RestForOne => if from <= failed then Taking(c, failed, c.Size()) else Taking(c, from, c.Size())
    decreases c.Size() - from
  {
    if from < c.Size() { AffectedSize(c, strategy, slots, failed, from + 1); }
  }

  /** What may be unread when a result of slot `k` is acted on, plus what its restart will owe. */
  lemma RestartFits(c: Config, slots: seq<Slot>, k: nat)
    requires |slots| == c.Size() && k < c.Size() && c.enabled[k] && c.max > 0
    requires forall i :: 0 <= i < |slots| && slots[i].active ==> c.enabled[i]
    ensures RoomBelow(c, k, c.Size()) + |Affected(c.strategy, slots, k)| <= Bound(c)
  {
    var n := c.Size();
    RoomBelowIs(c, k, n);
    AffectedSize(c, c.strategy, slots, k, 0);
    TakingSplit(c, 0, k, n);
    TriangleAbsorbs(Taking(c, 0, k), Taking(c, k, n));
  }

  function CountBelow(list: seq<Child>, x: nat): nat
  {
    if x == 0 then 0 else CountBelow(list, x - 1) + Count(list, x - 1)
  }

  lemma {:induction false} CountCons(list: seq<Child>, x: nat)
    requires list != []
    ensures CountBelow(list, x) == CountBelow(list[1..], x) + if list[0].index < x then 1 else 0
  {
    if x > 0 { CountCons(list, x - 1); }
  }

  lemma {:induction false} CountAll(list: seq<Child>, n: nat)
    requires forall ch :: ch in list ==> ch.index < n
    ensures CountBelow(list, n) == |list|
  {
    if list == [] {
      CountNone(n);
    } else {
      CountCons(list, n);
      assert list[0] in list;
      CountAll(list[1..], n);
    }
  }

  lemma {:induction false} CountNone(n: nat)
    ensures CountBelow([], n) == 0
  {
    if n > 0 { CountNone(n - 1); }
  }

  function RunningBelow(s: State, x: nat): nat
  {
    if x == 0 then 0 else RunningBelow(s, x - 1) + RunningAt(s, x - 1)
  }

  lemma {:induction false} RunningAll(s: State, x: nat)
    requires x <= |s.slots| && forall ch :: ch in s.running ==> s.Latest(ch)
    ensures RunningBelow(s, x) == |set ch | ch in s.running && ch.index < x|
  {
    var below := set ch | ch in s.running && ch.index < x;
    if x == 0 {
      assert below == {};
    } else {
      RunningAll(s, x - 1);
      var before := set ch | ch in s.running && ch.index < x - 1;
      var last := Child(x - 1, s.slots[x - 1].generation);
      assert below == if last in s.running then before + {last} else before;
    }
  }

  lemma {:induction false} FitsRoom(c: Config, s: State, x: nat)
    requires s.results != [] && x <= c.Size()
    requires forall i: nat :: i < c.Size() ==> Count(s.results[1..], i) + Owed(s, i) <= Room(c, s.results[0].index, i)
    ensures CountBelow(s.results[1..], x) + RunningBelow(s, x) <= RoomBelow(c, s.results[0].index, x)
  {
    hide Room, Count, RunningAt;
    if x > 0 {
      FitsRoom(c, s, x - 1);
      assert Count(s.results[1..], x - 1) + Owed(s, x - 1) <= Room(c, s.results[0].index, x - 1);
    }
  }

  /** When a result is acted on, everything else unread or owed fits its room. */
  lemma HeadFits(c: Config, s: State)
    requires Basic(c, s) && Slack(c, s) && s.phase.Selecting? && s.results != [] && s.Current(s.results[0])
    ensures |s.results| - 1 + |s.running| <= RoomBelow(c, s.results[0].index, c.Size())
  {
    assert Counted(s, s.results[0]);
    var n := c.Size();
    hide Counted, Count, Room;
    forall i: nat | i < n ensures Count(s.results[1..], i) + Owed(s, i) <= Room(c, s.results[0].index, i) {
      assert SlackAt(c, s, 0, i);
    }
    FitsRoom(c, s, n);
    forall ch | ch in s.results[1..] ensures ch.index < n { assert ch in s.results; }
    CountAll(s.results[1..], n);
    forall ch | ch in s.running ensures s.Latest(ch) { assert s.Live(ch); }
    RunningAll(s, n);
    assert s.running == set ch | ch in s.running && ch.index < n;
  }

  // ---------------------------------------------------------------- every run

  ghost predicate Inv(c: Config, s: State)
  {
    Basic(c, s) && FailedOk(c, s) && Slack(c, s) && s.Load() <= Bound(c)
  }

  lemma InitInv(c: Config)
    ensures Inv(c, Init(c))
  {
    var s := Init(c);
    InitBasic(c);
    AffectedSize(c, OneForAll, s.slots, 0, 0);
    hide Affected;
    AtMostTriangle(Taking(c, 0, c.Size()));
  }

  lemma AtMostTriangle(x: nat)
    ensures x <= Triangle(x)
  {
  }

  lemma ConsumeNeedsMax(c: Config, s: State, now: int)
    requires Admits(c, s, now)
    ensures c.max > 0
  {
  }

  lemma ReceiveKeepsLoad(c: Config, s: State, verdict: Verdict, now: int)
    requires Inv(c, s) && Enabled(c, s, Receive(verdict, now))
    ensures Decide(c, s, verdict, now).Load() <= Bound(c)
  {
    hide Bound, Slack, FailedOk, Policy.Consume, Affected;
    if verdict.Restart? && s.Current(s.results[0]) && Admits(c, s, now) {
      assert s.results[0] in s.results;
      HeadFits(c, s);
      ConsumeNeedsMax(c, s, now);
      RestartFits(c, s.slots, s.results[0].index);
    }
  }

  lemma StartKeepsLoad(c: Config, s: State, ok: bool)
    requires Inv(c, s) && Enabled(c, s, Start(ok))
    ensures StartNext(s, ok).Load() <= Bound(c)
  {
    hide Bound, Slack, FailedOk;
    StartKeepsPhase(c, s, ok);
    var child := Child(s.phase.pending[0], s.slots[s.phase.pending[0]].generation + 1);
    assert child !in s.running;
  }

  lemma StepKeepsLoad(c: Config, s: State, e: Event)
    requires Inv(c, s) && Enabled(c, s, e)
    ensures Apply(c, s, e).Load() <= Bound(c)
  {
    hide Bound, Slack, FailedOk, Basic;
    match e
    case Receive(verdict, now) => ReceiveKeepsLoad(c, s, verdict, now);
    case Start(ok) => StartKeepsLoad(c, s, ok);
    case Publish(ch) => assert Apply(c, s, e).Pending() == s.Pending();
    case _ =>
  }

  lemma StepKeeps(c: Config, s: State, e: Event)
    requires Inv(c, s) && Enabled(c, s, e)
    ensures Inv(c, Apply(c, s, e))
  {
    hide Basic, FailedOk, Slack, Bound;
    StepKeepsBasic(c, s, e);
    StepKeepsSlack(c, s, e);
    StepKeepsLoad(c, s, e);
  }

  lemma {:induction false} PathKeeps(c: Config, s: State, events: seq<Event>, t: State)
    requires Inv(c, s) && Path(c, s, events, t)
    ensures Inv(c, t)
    decreases |events|
  {
    hide Inv;
    if events != [] {
      StepKeeps(c, s, events[0]);
      PathKeeps(c, Apply(c, s, events[0]), events[1..], t);
    }
  }

  lemma ReachableInv(c: Config, s: State)
    requires Reachable(c, s)
    ensures Inv(c, s)
  {
    var events :| Path(c, Init(c), events, s);
    InitInv(c);
    PathKeeps(c, Init(c), events, s);
  }

  // ---------------------------------------------------------------- results

  /** The buffer holds a restart of every strategy but rest-for-one, which needs one place for each
      pair of slots that take part. */
  predicate Roomy(c: Config)
  {
    c.strategy.RestForOne? && c.max > 0 ==> Triangle(Taking(c, 0, c.Size())) <= c.Capacity()
  }

  lemma {:induction false} TakingAtMost(c: Config, lo: nat, hi: nat)
    requires lo <= hi <= c.Size()
    ensures Taking(c, lo, hi) <= hi - lo
    decreases hi - lo
  {
    if lo < hi { TakingAtMost(c, lo + 1, hi); }
  }

  /** In every reachable state the unread results and those still owed are within the bound. */
  lemma UnreadAndOwedBounded(c: Config, s: State)
    requires Reachable(c, s)
    ensures |s.results| + |s.running| + |s.Pending()| <= Bound(c)
    ensures var m, total := |TakingPart(c, c.Size())|, |s.results| + |s.running| + |s.Pending()|;
      match c.strategy
      case OneForOne => total <= m
      case OneForAll => total <= if c.max == 0 then m else 2 * m
      case RestForOne => 2 * total <= if c.max == 0 then 2 * m else m * (m + 1)
  {
    ReachableInv(c, s);
    TakingIs(c, c.Size());
    TriangleIs(Taking(c, 0, c.Size()));
    hide Inv;
  }

  /** The slots among the first `n` that take part at all. */
  ghost function TakingPart(c: Config, n: nat): set<nat>
    requires n <= c.Size()
  {
    set i: nat | i < n && c.enabled[i]
  }

  lemma {:induction false} TakingIs(c: Config, n: nat)
    requires n <= c.Size()
    ensures Taking(c, 0, n) == |TakingPart(c, n)|
    decreases n
  {
    if n > 0 {
      TakingIs(c, n - 1);
      TakingSnoc(c, 0, n - 1);
      assert TakingPart(c, n) == TakingPart(c, n - 1) + if c.enabled[n - 1] then {n - 1} else {};
    }
  }

  lemma {:induction false} TriangleIs(x: nat)
    ensures 2 * Triangle(x) == x * (x + 1)
  {
    if x > 0 { TriangleIs(x - 1); }
  }

  /** So no child ever waits to publish, and neither does the loop when a start fails at once. */
  lemma PublishNeverBlocks(c: Config, s: State)
    requires Reachable(c, s) && Roomy(c)
    ensures forall ch :: ch in s.running ==> Enabled(c, s, Publish(ch))
    ensures s.phase.Starting? ==> Enabled(c, s, Start(false))
  {
    ReachableInv(c, s);
    TakingAtMost(c, 0, c.Size());
    forall ch | ch in s.running ensures |s.running| >= 1 {}
    if s.phase.Starting? { assert s.Pending()[0] in s.Pending(); }
  }

  /** The child a join is waiting for. */
  predicate Awaits(s: State, ch: Child)
  {
    && s.Latest(ch)
    && match s.phase
      case Joining(i) => i == ch.index
      case Quiescing(_, w, _) => w != [] && w[|w| - 1] == ch.index
      case Stopping(w) => w != [] && w[|w| - 1] == ch.index
      case _ => false
  }

  predicate Waiting(s: State)
  {
    s.phase.Joining? || s.phase.Quiescing? || s.phase.Stopping?
  }

  /** Every join returns: the awaited child gets to publish and to close, by itself. */
  lemma JoinReturns(c: Config, s: State) returns (events: seq<Event>, t: State)
    requires Reachable(c, s) && Roomy(c) && Waiting(s)
    ensures Path(c, s, events, t) && Enabled(c, t, Join) && t.phase == s.phase
    ensures forall e :: e in events ==> (e.Publish? && Awaits(s, e.child)) || (e.Close? && Awaits(s, e.child))
  {
    ReachableInv(c, s);
    PublishNeverBlocks(c, s);
    var i := match s.phase case Joining(i) => i case Quiescing(_, w, _) => w[|w| - 1] case Stopping(w) => w[|w| - 1] case _ => 0;
    AwaitedSlot(c, s, i);
    hide Inv, Reachable, Roomy;
    var ch := Child(i, s.slots[i].generation);
    if ch in s.running {
      events, t := [Publish(ch), Close(ch)], s.(running := s.running - {ch}, closing := s.closing - {ch}, results := s.results + [ch]);
      PublishThenClose(c, s, ch);
    } else if ch in s.closing {
      events, t := [Close(ch)], s.(closing := s.closing - {ch});
      assert [Close(ch)][1..] == [];
    } else {
      events, t := [], s;
    }
    EndedJoins(c, s, t, i);
  }

  lemma PublishThenClose(c: Config, s: State, ch: Child)
    requires Enabled(c, s, Publish(ch))
    ensures Path(c, s, [Publish(ch), Close(ch)], s.(running := s.running - {ch}, closing := s.closing - {ch}, results := s.results + [ch]))
  {
    assert [Publish(ch), Close(ch)][1..] == [Close(ch)] && [Close(ch)][1..] == [];
    assert (s.closing + {ch}) - {ch} == s.closing - {ch};
  }

  lemma EndedJoins(c: Config, s: State, t: State, i: nat)
    requires i < |s.slots| && Awaits(s, Child(i, s.slots[i].generation)) && t.phase == s.phase && t.slots == s.slots && t.Ended(i)
    ensures Enabled(c, t, Join)
  {
  }

  lemma AwaitedSlot(c: Config, s: State, i: nat)
    requires Basic(c, s) && Waiting(s)
    requires i == match s.phase case Joining(i) => i case Quiescing(_, w, _) => w[|w| - 1] case Stopping(w) => w[|w| - 1] case _ => 0
    ensures i < |s.slots| && Awaits(s, Child(i, s.slots[i].generation))
    ensures s.Ended(i) ==> Enabled(c, s, Join)
    ensures s.phase.Quiescing? ==> s.phase.waiting != []
    ensures s.phase.Stopping? ==> s.phase.waiting != []
  {
    if s.phase.Quiescing? {
      var w := s.phase.waiting;
      assert w[|w| - 1] == s.phase.affected[|w| - 1] && s.phase.affected[|w| - 1] in s.Pending();
    } else if s.phase.Stopping? {
      assert s.phase.waiting[|s.phase.waiting| - 1] in s.phase.waiting;
    }
  }

  /** At most one generation of a slot is live. */
  lemma OneLiveGeneration(c: Config, s: State, a: Child, b: Child)
    requires Reachable(c, s) && s.Live(a) && s.Live(b) && a.index == b.index
    ensures a == b
  {
    ReachableInv(c, s);
  }

  /** A restart starts nothing until every generation it replaces has published and closed. */
  lemma RestartAfterAllEnded(c: Config, s: State, ch: Child)
    requires Reachable(c, s) && (s.phase.BackingOff? || s.phase.Starting?) && ch.index in s.Pending()
    ensures !s.Live(ch)
  {
    ReachableInv(c, s);
    assert s.Ended(ch.index);
  }

  /** The loop returns, on whatever path, only with no generation live. */
  lemma ReturnedIsQuiet(c: Config, s: State)
    requires Reachable(c, s) && s.phase.Returned?
    ensures s.running == {} && s.closing == {}
  {
    ReachableInv(c, s);
    forall ch ensures ch !in s.running && ch !in s.closing { assert s.Live(ch) ==> ch.index < |s.slots|; }
  }

  /** Every generation that was ever started is still to publish, waits in the buffer or was read,
      and exactly one of these, so each result is acted on at most once. */
  lemma ResultsAreConserved(c: Config, s: State, i: nat, g: nat)
    requires Reachable(c, s) && i < |s.slots|
    ensures var ch := Child(i, g);
      && (1 <= g <= s.slots[i].generation <==> ch in s.running || ch in s.results || ch in s.consumed)
      && !(ch in s.running && ch in s.results) && !(ch in s.running && ch in s.consumed) && !(ch in s.results && ch in s.consumed)
      && multiset(s.results)[ch] <= 1
  {
    ReachableInv(c, s);
    var ch := Child(i, g);
    assert Issued(s, ch) <==> 1 <= g <= s.slots[i].generation;
    OnceEach(s.results, ch);
  }

  /** A result whose slot has moved on to a newer generation, or was stopped, is dropped; one that
      is acted on comes from the newest generation of an active slot, which is no longer running. */
  lemma OnlyNewestActs(c: Config, s: State, verdict: Verdict, now: int)
    requires Reachable(c, s) && Enabled(c, s, Receive(verdict, now))
    ensures var ch := s.results[0];
      var newer := exists g :: g > ch.generation && (Child(ch.index, g) in s.running || Child(ch.index, g) in s.results || Child(ch.index, g) in s.consumed);
      && ch.index < |s.slots|
      && (newer || !s.slots[ch.index].active ==> Decide(c, s, verdict, now) == Take(s))
      && (!newer && s.slots[ch.index].active ==> !Decide(c, s, verdict, now).phase.Selecting? && ch !in s.running)
  {
    ReachableInv(c, s);
    var ch := s.results[0];
    assert ch in s.results;
    var latest := Child(ch.index, s.slots[ch.index].generation);
    assert Issued(s, ch) && Issued(s, latest);
  }

  /** The restarts of a whole run obey the intensity limit in every window. */
  lemma RestartsObeyIntensity(c: Config, s: State, from: int, i: nat, j: nat)
    requires Reachable(c, s) && i <= j < |s.restarted|
    requires from <= s.restarted[i] && s.restarted[j] < from + c.window
    ensures j - i + 1 <= c.max
  {
    ReachableInv(c, s);
    Policy.WindowHoldsAtMostMax(s.asked, c.max, c.window, from, i, j);
  }
}
