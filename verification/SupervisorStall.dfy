/** When the result buffer is too small: a rest-for-one supervisor that can wait forever.

    Children fail from the last slot to the first while their results queue up; every failure
    restarts all later slots once more and leaves one more stale result of each in the buffer. */
module SupervisorStall {
  import opened Supervisor
  import opened SupervisorBuffer
  import Policy

  /** The loop joins a child that cannot publish because the buffer is full, and nobody reads. */
  ghost predicate Stuck(c: Config, s: State)
  {
    |s.results| == c.Capacity() && exists ch :: ch in s.running && Awaits(s, ch)
  }

  /** No step of anybody gets out of it. */
  lemma StuckStays(c: Config, s: State, e: Event)
    requires Stuck(c, s) && Enabled(c, s, e)
    ensures Stuck(c, Apply(c, s, e))
  {
    var ch :| ch in s.running && Awaits(s, ch);
    assert Awaits(Apply(c, s, e), ch);
  }

  /** A roomy buffer never gets there. */
  lemma RoomyNeverStuck(c: Config, s: State)
    requires Reachable(c, s) && Roomy(c)
    ensures !Stuck(c, s)
  {
    PublishNeverBlocks(c, s);
  }

  // ---------------------------------------------------------------- pieces of a run

  lemma {:induction false} PathJoin(c: Config, s: State, first: seq<Event>, t: State, second: seq<Event>, u: State)
    requires Path(c, s, first, t) && Path(c, t, second, u)
    ensures Path(c, s, first + second, u)
    decreases |first|
  {
    if first == [] {
      assert first + second == second;
    } else {
      assert (first + second)[1..] == first[1..] + second;
      PathJoin(c, Apply(c, s, first[0]), first[1..], t, second, u);
    }
  }

  lemma PathSnoc(c: Config, s: State, first: seq<Event>, t: State, e: Event)
    requires Path(c, s, first, t) && Enabled(c, t, e)
    ensures Path(c, s, first + [e], Apply(c, t, e))
  {
    assert [e][1..] == [];
    PathJoin(c, s, first, t, [e], Apply(c, t, e));
  }

  function Latest(s: State, i: nat): Child
    requires i < |s.slots|
  {
    Child(i, s.slots[i].generation)
  }

  predicate InRange(slots: seq<Slot>, list: seq<nat>)
  {
    Ascending(list) && forall j :: 0 <= j < |list| ==> list[j] < |slots|
  }

  function LatestOf(s: State, list: seq<nat>): set<Child>
    requires InRange(s.slots, list)
  {
    set j | 0 <= j < |list| :: Latest(s, list[j])
  }

  lemma OneLess(s: State, list: seq<nat>)
    requires InRange(s.slots, list) && list != []
    ensures InRange(s.slots, list[1..])
    ensures LatestOf(s, list[1..]) == LatestOf(s, list) - {Latest(s, list[0])}
  {
    forall j | 0 <= j < |list[1..]| ensures list[1..][j] == list[j + 1] && list[0] < list[j + 1] {}
    forall ch | ch in LatestOf(s, list) && ch != Latest(s, list[0]) ensures ch in LatestOf(s, list[1..]) {
      var j :| 0 <= j < |list| && ch == Latest(s, list[j]);
      assert list[1..][j - 1] == list[j];
    }
    forall ch | ch in LatestOf(s, list[1..]) ensures ch in LatestOf(s, list) && ch != Latest(s, list[0]) {
      var j :| 0 <= j < |list[1..]| && ch == Latest(s, list[1..][j]);
      assert ch == Latest(s, list[j + 1]);
    }
  }

  function PublishClose(s: State, ch: Child): State
  {
    s.(running := s.running - {ch}, results := s.results + [ch])
  }

  lemma PublishCloses(c: Config, s: State, ch: Child)
    requires ch in s.running && |s.results| < c.Capacity() && s.closing == {}
    ensures Path(c, s, [Publish(ch), Close(ch)], PublishClose(s, ch))
  {
    assert [Publish(ch), Close(ch)][1..] == [Close(ch)] && [Close(ch)][1..] == [];
    var t := Apply(c, s, Publish(ch));
    assert t.closing == {ch};
    assert t.closing - {ch} == {};
  }

  /** The running children publish in slot order: all of them, or until the buffer is full. */
  lemma {:induction false} PublishInOrder(c: Config, s: State, list: seq<nat>) returns (events: seq<Event>, t: State)
    requires InRange(s.slots, list) && s.running == LatestOf(s, list) && s.closing == {} && |s.results| <= c.Capacity()
    ensures Path(c, s, events, t) && t == s.(results := t.results, running := t.running) && s.results <= t.results
    ensures |s.results| + |list| <= c.Capacity() ==> t.running == {} && |t.results| == |s.results| + |list|
    ensures |s.results| + |list| > c.Capacity() ==>
              |t.results| == c.Capacity() && Latest(s, list[|list| - 1]) in t.running
    decreases |list|
  {
    events, t := [], s;
    if list != [] && |s.results| < c.Capacity() {
      var ch := Latest(s, list[0]);
      PublishCloses(c, s, ch);
      OneLess(s, list);
      var next := PublishClose(s, ch);
      assert LatestOf(next, list[1..]) == LatestOf(s, list[1..]);
      events, t := PublishInOrder(c, next, list[1..]);
      PathJoin(c, s, [Publish(ch), Close(ch)], next, events, t);
      events := [Publish(ch), Close(ch)] + events;
    }
  }

  /** With every affected child ended, the joins of a restart all return. */
  lemma {:induction false} JoinAll(c: Config, s: State) returns (events: seq<Event>)
    requires s.phase.Quiescing? && s.phase.waiting != [] && s.running == {} && s.closing == {}
    requires forall j :: 0 <= j < |s.phase.waiting| ==> s.phase.waiting[j] < |s.slots|
    ensures Path(c, s, events, s.(phase := BackingOff(s.phase.affected)))
    decreases |s.phase.waiting|
  {
    var t := Joined(c, s);
    events := [Join];
    assert [Join][1..] == [];
    if |s.phase.waiting| > 1 {
      var more := JoinAll(c, t);
      PathJoin(c, s, events, t, more, t.(phase := BackingOff(s.phase.affected)));
      events := events + more;
    }
  }

  /** `t` is `s` with the slots of `list` on their next generation, all running. */
  predicate StartedAll(s: State, t: State, list: seq<nat>)
    requires InRange(s.slots, list)
  {
    && |t.slots| == |s.slots|
    && (forall i :: 0 <= i < |s.slots| ==> t.slots[i].active == s.slots[i].active)
    && (forall i :: 0 <= i < |s.slots| && i !in list ==> t.slots[i] == s.slots[i])
    && t.running == s.running + LatestOf(t, list)
    && t == s.(slots := t.slots, running := t.running, phase := Selecting)
  }

  lemma {:induction false} StartAll(c: Config, s: State) returns (events: seq<Event>, t: State)
    requires s.phase.Starting? && s.phase.pending != [] && InRange(s.slots, s.phase.pending)
    ensures Path(c, s, events, t) && StartedAll(s, t, s.phase.pending)
    decreases |s.phase.pending|
  {
    var p := s.phase.pending;
    t := StartNext(s, true);
    events := [Start(true)];
    assert [Start(true)][1..] == [];
    OneLess(s, p);
    assert p == [p[0]] + p[1..];
    if |p| == 1 {
      assert LatestOf(t, p) == {Latest(t, p[0])};
    } else {
      var mid := t;
      var more;
      more, t := StartAll(c, mid);
      PathJoin(c, s, events, mid, more, t);
      events := events + more;
      StartedMore(s, mid, t);
    }
  }

  lemma StartedMore(s: State, mid: State, t: State)
    requires s.phase.Starting? && |s.phase.pending| > 1 && InRange(s.slots, s.phase.pending) && mid == StartNext(s, true)
    requires InRange(mid.slots, s.phase.pending[1..]) && StartedAll(mid, t, s.phase.pending[1..])
    ensures StartedAll(s, t, s.phase.pending)
  {
    var p := s.phase.pending;
    assert p == [p[0]] + p[1..];
    assert InRange(t.slots, p);
    OneLess(t, p);
    SplitFirst(p);
    assert t.slots[p[0]] == mid.slots[p[0]];
    assert Latest(t, p[0]) == Child(p[0], s.slots[p[0]].generation + 1);
    assert Latest(t, p[0]) in LatestOf(t, p);
  }

  // ---------------------------------------------------------------- the cascade

  /** Slots `list[..k]` have failed, their results at the head of the buffer from the last slot to
      the first; the others run, and the restart budget is free again a window after `clock`. */
  ghost predicate Tidy(c: Config, s: State, list: seq<nat>, k: nat, clock: int)
  {
    && s.phase.Selecting? && !s.cancelled && s.closing == {}
    && |s.slots| == c.Size() && (forall i :: 0 <= i < c.Size() ==> s.slots[i].active == c.enabled[i])
    && InRange(s.slots, list) && (forall i: nat :: i in list <==> i < c.Size() && c.enabled[i])
    && k <= |list| && k <= |s.results| <= c.Capacity()
    && (forall j :: 0 <= j < k ==> s.results[j] == Latest(s, list[k - 1 - j]))
    && InRange(s.slots, list[k..]) && s.running == LatestOf(s, list[k..])
    && (forall j :: 0 <= j < |s.uses| ==> s.uses[j] <= clock) && (s.asked != [] ==> s.asked[|s.asked| - 1] <= clock)
  }

  lemma {:induction false} AllOld(uses: seq<int>, cutoff: int)
    requires forall j :: 0 <= j < |uses| ==> uses[j] <= cutoff
    ensures Policy.Recent(uses, cutoff) == []
  {
    if uses != [] { AllOld(uses[1..], cutoff); }
  }

  lemma SameList(a: seq<nat>, b: seq<nat>)
    requires Ascending(a) && Ascending(b) && forall i: nat :: i in a <==> i in b
    ensures a == b
  {
    if a != [] && b != [] {
      FirstIsLeast(a, b);
      FirstIsLeast(b, a);
      SplitFirst(a);
      SplitFirst(b);
      SameList(a[1..], b[1..]);
      assert a == [a[0]] + a[1..] && b == [b[0]] + b[1..];
    } else {
      HeadIsMember(a);
      HeadIsMember(b);
    }
  }

  lemma HeadIsMember(a: seq<nat>)
    ensures a == [] || a[0] in a
  {
  }

  lemma FirstIsLeast(a: seq<nat>, b: seq<nat>)
    requires a != [] && b != [] && Ascending(a) && Ascending(b) && forall i: nat :: i in a <==> i in b
    ensures a[0] <= b[0]
  {
    assert b[0] in a;
  }

  lemma TailAffected(c: Config, s: State, list: seq<nat>, k: nat, clock: int)
    requires c.strategy.RestForOne? && 0 < k && Tidy(c, s, list, k, clock)
    ensures Affected(c.strategy, s.slots, list[k - 1]) == list[k - 1..]
  {
    AffectedIs(c.strategy, s.slots, list[k - 1], 0);
    var a, tail := Affected(c.strategy, s.slots, list[k - 1]), list[k - 1..];
    hide Affected;
    forall i: nat ensures i in a <==> i in tail {
      if i in a {
        var j :| 0 <= j < |list| && list[j] == i;
        assert j >= k - 1;
        assert tail[j - (k - 1)] == i;
      }
      if i in tail {
        var j :| 0 <= j < |tail| && tail[j] == i;
        assert list[j + k - 1] == i && list[j + k - 1] in list;
      }
    }
    SameList(a, tail);
  }

  /** The head result is read and its restart admitted. */
  lemma ReadHead(c: Config, s: State, list: seq<nat>, k: nat, clock: int) returns (t: State)
    requires c.strategy.RestForOne? && c.max > 0 && 0 < k && Tidy(c, s, list, k, clock)
    ensures Path(c, s, [Receive(Restart, clock + c.window)], t)
    ensures t == s.(results := s.results[1..], consumed := t.consumed, uses := [clock + c.window],
                    asked := s.asked + [clock + c.window], restarted := t.restarted,
                    phase := Quiescing(list[k - 1], list[k - 1..], list[k - 1..]))
  {
    var now := clock + c.window;
    var i := list[k - 1];
    assert i in list;
    assert s.slots[i].active;
    assert Enabled(c, s, Receive(Restart, now));
    AllOld(s.uses, now - c.window);
    TailAffected(c, s, list, k, clock);
    t := Decide(c, s, Restart, now);
    assert [Receive(Restart, now)][1..] == [];
    assert s.results[0] == Latest(s, i);
    assert [] + [now] == [now];
  }

  /** One failure handled: either the buffer fills up while the affected children are joined, or
      all of them have left one more result and run again. */
  lemma Round(c: Config, s: State, list: seq<nat>, k: nat, clock: int) returns (events: seq<Event>, t: State)
    requires c.strategy.RestForOne? && c.max > 0 && 0 < k && Tidy(c, s, list, k, clock)
    ensures Path(c, s, events, t)
    ensures Stuck(c, t) || (Tidy(c, t, list, k - 1, clock + c.window) && |t.results| == |s.results| - 1 + |list| - k)
  {
    hide Path, Awaits, LatestOf;
    var read := ReadHead(c, s, list, k, clock);
    SameLatest(s, read, list[k..]);
    var more;
    more, t := PublishInOrder(c, read, list[k..]);
    events := [Receive(Restart, clock + c.window)] + more;
    PathJoin(c, s, [Receive(Restart, clock + c.window)], read, more, t);
    if |read.results| + |list[k..]| > c.Capacity() {
      FullWhileQuiescing(c, t, list, k);
    } else {
      var quiet := t;
      more, t := RestartQuiet(c, quiet, list[k - 1..]);
      PathJoin(c, s, events, quiet, more, t);
      events := events + more;
      RoundTidies(c, s, read, quiet, t, list, k, clock);
    }
  }

  lemma SameLatest(s: State, t: State, list: seq<nat>)
    requires t.slots == s.slots && InRange(s.slots, list)
    ensures LatestOf(t, list) == LatestOf(s, list)
  {
  }

  lemma FullWhileQuiescing(c: Config, t: State, list: seq<nat>, k: nat)
    requires 0 < k < |list| && t.phase == Quiescing(list[k - 1], list[k - 1..], list[k - 1..])
    requires InRange(t.slots, list[k..]) && |t.results| == c.Capacity() && Latest(t, list[k..][|list[k..]| - 1]) in t.running
    ensures Stuck(c, t)
  {
    var tail := list[k - 1..];
    assert list[k..][|list[k..]| - 1] == list[|list| - 1] == tail[|tail| - 1];
    assert Awaits(t, Latest(t, list[|list| - 1]));
  }

  /** The joins, the backoff and the starts of a restart whose children have all ended. */
  lemma RestartQuiet(c: Config, quiet: State, tail: seq<nat>) returns (events: seq<Event>, t: State)
    requires quiet.phase.Quiescing? && quiet.phase.waiting == quiet.phase.affected == tail && tail != []
    requires quiet.running == {} && quiet.closing == {} && InRange(quiet.slots, tail)
    ensures Path(c, quiet, events, t) && StartedAll(quiet, t, tail)
  {
    hide Path, LatestOf;
    events := JoinAll(c, quiet);
    PathSnoc(c, quiet, events, quiet.(phase := BackingOff(tail)), Wake);
    events := events + [Wake];
    var woken := quiet.(phase := Starting(tail));
    var more;
    more, t := StartAll(c, woken);
    PathJoin(c, quiet, events, woken, more, t);
    events := events + more;
  }

  lemma RoundTidies(c: Config, s: State, read: State, quiet: State, t: State, list: seq<nat>, k: nat, clock: int)
    requires 0 < k && Tidy(c, s, list, k, clock)
    requires read == s.(results := s.results[1..], consumed := read.consumed, uses := [clock + c.window],
                    asked := s.asked + [clock + c.window], restarted := read.restarted,
                    phase := Quiescing(list[k - 1], list[k - 1..], list[k - 1..]))
    requires quiet == read.(results := quiet.results, running := {}) && read.results <= quiet.results
    requires |quiet.results| == |read.results| + |list| - k && |quiet.results| <= c.Capacity()
    requires InRange(quiet.slots, list[k - 1..]) && StartedAll(quiet, t, list[k - 1..])
    ensures Tidy(c, t, list, k - 1, clock + c.window)
  {
    var tail := list[k - 1..];
    forall j | 0 <= j < k - 1 ensures t.results[j] == Latest(t, list[k - 2 - j]) {
      assert t.results[j] == read.results[j] == s.results[j + 1];
      assert list[k - 2 - j] !in tail;
    }
    assert {} + LatestOf(t, tail) == LatestOf(t, tail);
    assert |t.asked| > 0 && t.asked[|t.asked| - 1] == clock + c.window;
  }

  /** How many results are unread when the failures of slots `list[k..]` have been handled. */
  function Unread(m: nat, k: nat): nat
    requires k <= m
  {
    k + if k == m then 0 else Triangle(m - k - 1)
  }

  lemma {:induction false} Cascade(c: Config, s: State, list: seq<nat>, k: nat, clock: int) returns (events: seq<Event>, t: State)
    requires c.strategy.RestForOne? && c.max > 0 && Tidy(c, s, list, k, clock) && |s.results| == Unread(|list|, k)
    requires Triangle(|list|) > c.Capacity()
    ensures Path(c, s, events, t) && Stuck(c, t)
    decreases k
  {
    if k == 0 {
      events, t := StopWhileFull(c, s, list, clock);
    } else {
      events, t := Round(c, s, list, k, clock);
      if !Stuck(c, t) {
        var mid := t;
        var more;
        more, t := Cascade(c, mid, list, k - 1, clock + c.window);
        PathJoin(c, s, events, mid, more, t);
        events := events + more;
      }
    }
  }

  /** All slots run again behind a buffer too full for one more result of each; the supervisor is
      cancelled before it reads on. */
  lemma StopWhileFull(c: Config, s: State, list: seq<nat>, clock: int) returns (events: seq<Event>, t: State)
    requires Tidy(c, s, list, 0, clock) && list != [] && |s.results| + |list| > c.Capacity()
    ensures Path(c, s, events, t) && Stuck(c, t)
  {
    var stopped := StopNow(c, s, list);
    assert list[0..] == list;
    SameLatest(s, stopped, list);
    assert stopped.running == LatestOf(stopped, list) && s.closing == {} && |s.results| <= c.Capacity();
    hide Path, LatestOf, Tidy, Awaits, InRange;
    var more;
    more, t := PublishInOrder(c, stopped, list);
    PathJoin(c, s, [Cancel, StopAll(false)], stopped, more, t);
    events := [Cancel, StopAll(false)] + more;
    assert t.phase == Stopping(list) && Latest(t, list[|list| - 1]) in t.running && |t.results| == c.Capacity();
    LastAwaited(c, t, list);
  }

  lemma LastAwaited(c: Config, t: State, list: seq<nat>)
    requires t.phase == Stopping(list) && InRange(t.slots, list) && list != []
    requires Latest(t, list[|list| - 1]) in t.running && |t.results| == c.Capacity()
    ensures Stuck(c, t)
  {
    assert Awaits(t, Latest(t, list[|list| - 1]));
  }

  lemma StopNow(c: Config, s: State, list: seq<nat>) returns (t: State)
    requires s.phase.Selecting? && InRange(s.slots, list) && list != []
    requires forall i: nat :: i in list <==> i < |s.slots| && s.slots[i].active
    ensures t == s.(cancelled := true, phase := Stopping(list)) && Path(c, s, [Cancel, StopAll(false)], t)
  {
    var events := [Cancel, StopAll(false)];
    assert events[1..] == [StopAll(false)] && [StopAll(false)][1..] == [];
    t := BeginStop(s.(cancelled := true));
    AffectedIs(OneForAll, s.slots, 0, 0);
    SameList(ActiveSlots(s.slots), list);
  }

  // ---------------------------------------------------------------- and how it begins

  lemma ReverseSnoc(s: State, list: seq<nat>)
    requires InRange(s.slots, list) && list != []
    ensures InRange(s.slots, list[..|list| - 1])
    ensures LatestOf(s, list[..|list| - 1]) == LatestOf(s, list) - {Latest(s, list[|list| - 1])}
  {
    var front, last := list[..|list| - 1], list[|list| - 1];
    forall ch | ch in LatestOf(s, list) && ch != Latest(s, last) ensures ch in LatestOf(s, front) {
      var j :| 0 <= j < |list| && ch == Latest(s, list[j]);
      assert front[j] == list[j];
    }
    forall ch | ch in LatestOf(s, front) ensures ch in LatestOf(s, list) && ch != Latest(s, last) {
      var j :| 0 <= j < |front| && ch == Latest(s, front[j]);
      assert ch == Latest(s, list[j]) && list[j] < last;
    }
  }

  /** The results of `list`, last slot first. */
  function Backwards(s: State, list: seq<nat>): seq<Child>
    requires InRange(s.slots, list)
  {
    if list == [] then [] else [Latest(s, list[|list| - 1])] + Backwards(s, list[..|list| - 1])
  }

  lemma {:induction false} BackwardsAt(s: State, list: seq<nat>, j: nat)
    requires InRange(s.slots, list) && j < |list|
    ensures |Backwards(s, list)| == |list| && Backwards(s, list)[j] == Latest(s, list[|list| - 1 - j])
  {
    if |list| > 1 { BackwardsAt(s, list[..|list| - 1], if j > 0 then j - 1 else 0); }
  }

  lemma {:induction false} SameBackwards(s: State, t: State, list: seq<nat>)
    requires t.slots == s.slots && InRange(s.slots, list)
    ensures Backwards(t, list) == Backwards(s, list)
  {
    if list != [] { SameBackwards(s, t, list[..|list| - 1]); }
  }

  /** The running children fail from the last slot to the first. */
  lemma {:induction false} PublishInReverse(c: Config, s: State, list: seq<nat>) returns (events: seq<Event>, t: State)
    requires InRange(s.slots, list) && s.running == LatestOf(s, list) && s.closing == {}
    requires |s.results| + |list| <= c.Capacity()
    ensures Path(c, s, events, t) && t == s.(results := s.results + Backwards(s, list), running := {})
    decreases |list|
  {
    events, t := [], s;
    if list != [] {
      var front := list[..|list| - 1];
      var ch := Latest(s, list[|list| - 1]);
      assert ch in s.running;
      PublishCloses(c, s, ch);
      ReverseSnoc(s, list);
      var next := PublishClose(s, ch);
      SameLatest(s, next, front);
      SameBackwards(s, next, front);
      assert s.results + Backwards(s, list) == (s.results + [ch]) + Backwards(s, front);
      hide Path, LatestOf, InRange, Backwards;
      events, t := PublishInReverse(c, next, front);
      PathJoin(c, s, [Publish(ch), Close(ch)], next, events, t);
      events := [Publish(ch), Close(ch)] + events;
    } else {
      assert s.running == {} && s.results + [] == s.results;
    }
  }

  lemma {:induction false} ListSize(c: Config, slots: seq<Slot>, from: nat)
    requires |slots| == c.Size() && from <= c.Size() && forall i :: 0 <= i < |slots| ==> slots[i].active == c.enabled[i]
    ensures |Affected(OneForAll, slots, 0, from)| == Taking(c, from, c.Size())
    decreases c.Size() - from
  {
    if from < c.Size() { ListSize(c, slots, from + 1); }
  }

  /** All slots that take part run. */
  lemma Ignition(c: Config) returns (list: seq<nat>, events: seq<Event>, t: State)
    requires Taking(c, 0, c.Size()) > 0
    ensures |list| == Taking(c, 0, c.Size()) && InRange(Init(c).slots, list) && (forall i: nat :: i in list <==> i < c.Size() && c.enabled[i])
    ensures Path(c, Init(c), events, t) && StartedAll(Init(c), t, list)
  {
    var s := Init(c);
    list := ActiveSlots(s.slots);
    AffectedIs(OneForAll, s.slots, 0, 0);
    ListSize(c, s.slots, 0);
    hide Affected, Path;
    assert forall j :: 0 <= j < |list| ==> list[j] in list;
    events, t := StartAll(c, s);
  }

  lemma Opening(c: Config) returns (list: seq<nat>, events: seq<Event>, t: State)
    requires Taking(c, 0, c.Size()) > 0
    ensures Path(c, Init(c), events, t) && Tidy(c, t, list, |list|, 0)
    ensures |list| == Taking(c, 0, c.Size()) == |t.results|
  {
    var mid;
    list, events, mid := Ignition(c);
    TakingAtMost(c, 0, c.Size());
    hide Path, LatestOf, Backwards;
    assert {} + LatestOf(mid, list) == LatestOf(mid, list);
    var more;
    more, t := PublishInReverse(c, mid, list);
    PathJoin(c, Init(c), events, mid, more, t);
    events := events + more;
    assert [] + Backwards(mid, list) == Backwards(mid, list);
    BackwardsAt(mid, list, 0);
    forall j | 0 <= j < |list| ensures t.results[j] == Latest(t, list[|list| - 1 - j]) { BackwardsAt(mid, list, j); }
    OpeningIsTidy(c, t, list);
  }

  lemma OpeningIsTidy(c: Config, t: State, list: seq<nat>)
    requires t.phase.Selecting? && !t.cancelled && t.closing == {} && t.running == {} && t.uses == [] && t.asked == []
    requires |t.slots| == c.Size() && (forall i :: 0 <= i < c.Size() ==> t.slots[i].active == c.enabled[i])
    requires InRange(t.slots, list) && (forall i: nat :: i in list <==> i < c.Size() && c.enabled[i])
    requires |t.results| == |list| <= c.Capacity() && forall j :: 0 <= j < |list| ==> t.results[j] == Latest(t, list[|list| - 1 - j])
    ensures Tidy(c, t, list, |list|, 0)
  {
    assert list[|list|..] == [];
    assert LatestOf(t, []) == {};
  }

  /** A buffer that is not roomy can be filled: some run ends with the loop stuck for good. */
  lemma SmallBufferStalls(c: Config) returns (events: seq<Event>, t: State)
    requires !Roomy(c)
    ensures Path(c, Init(c), events, t) && Stuck(c, t)
  {
    var list, mid;
    list, events, mid := Opening(c);
    var more;
    more, t := Cascade(c, mid, list, |list|, 0);
    PathJoin(c, Init(c), events, mid, more, t);
    events := events + more;
  }

  /** With every slot taking part, rest-for-one is safe with up to three slots and with no more. */
  lemma FourSlotsAreTooMany(c: Config)
    requires c.strategy.RestForOne? && c.max > 0 && forall i :: 0 <= i < c.Size() ==> c.enabled[i]
    ensures Roomy(c) <==> c.Size() <= 3
  {
    AllTake(c, 0, c.Size());
    assert Triangle(3) == 3 + Triangle(2) == 5 + Triangle(1) && Triangle(1) == 1 && Triangle(0) == 0;
    if c.Size() > 3 { FourOutgrow(c.Size()); }
  }

  lemma {:induction false} AllTake(c: Config, lo: nat, hi: nat)
    requires lo <= hi <= c.Size() && forall i :: 0 <= i < c.Size() ==> c.enabled[i]
    ensures Taking(c, lo, hi) == hi - lo
    decreases hi - lo
  {
    if lo < hi { AllTake(c, lo + 1, hi); }
  }

  lemma {:induction false} FourOutgrow(x: nat)
    requires x >= 4
    ensures Triangle(x) > 2 * x + 1
  {
    if x > 4 { FourOutgrow(x - 1); } else { assert Triangle(4) == 4 + Triangle(3) == 7 + Triangle(2) == 9 + Triangle(1); }
  }
}
