/** The selected-column walk: a lazy merge of per-column GETBULK cursors. */
module ColumnWalk {
  import opened Common
  import opened Oids
  import opened ColumnState
  import Ber

  class ColumnMerge<V(!new, ==)> {
    const agent: Agent<V>
    const cancelled: nat -> bool
    const accepts: nat -> bool
    const maxVars: int
    const ignoreNonIncreasing: bool
    ghost const cap: nat
    ghost const depth: nat
    ghost const widest: nat
    ghost const roots: seq<Oid>

    var columns: seq<Cursor<V>>
    var count: nat
    var start: nat
    var repetitions: nat
    var width: nat
    var clock: nat
    var rows: seq<Row<V>>
    ghost var log: seq<Sent>

    ghost predicate Valid(last: Oid)
      reads this
    {
      && AllOk(columns, last, cap) && RootsAre(columns, roots) && Counted(rows, columns, count)
      && 1 <= repetitions <= cap && 1 <= width <= widest && Modest()
      && (columns == [] || start < |columns|)
      && depth >= 128
      && (maxVars > 0 ==> count <= maxVars)
    }

    /** Every request so far kept the limits. */
    ghost predicate Modest()
      reads this`log
    {
      Polite(log, widest, cap)
    }

    /** The next request may be for this many columns at the present repetitions. */
    ghost predicate Ready(columns: nat)
      reads this`log, this`repetitions
    {
      if log == [] then repetitions == cap
      else var a := log[|log| - 1]; repetitions == a.repetitions && (a.tooBig ==> !a.next && a.repetitions == 1 && 2 * columns <= |a.oids|)
    }

    /** The last request was answered. */
    ghost predicate Answered()
      reads this`log, this`repetitions
    {
      if log == [] then repetitions == cap else repetitions == log[|log| - 1].repetitions && !log[|log| - 1].tooBig
    }

    /** What an honest agent can be to blame for. */
    ghost function Excuses(view: map<Oid, V>): Excuse
    {
      Excuse(Unsendable(view, roots), Instances(view, roots) > maxVars)
    }

    constructor (roots: seq<Oid>, limits: Limits, agent: Agent<V>, cancelled: nat -> bool, accepts: nat -> bool)
      requires limits.repetitions >= 1 && limits.width >= 1
      ensures Valid([]) && Answered() && rows == [] && count == 0 && log == []
      ensures this.roots == roots && this.agent == agent && this.cancelled == cancelled && maxVars == limits.maxVars
      ensures cap == limits.repetitions && widest == limits.width
      ensures |columns| == |roots| && this.accepts == accepts && clock == 0
      ensures forall i :: 0 <= i < |roots| ==> columns[i] == Cursor(roots[i], roots[i], [], false, false)
    {
      this.roots := roots;
      this.agent := agent;
      this.cancelled := cancelled;
      this.accepts := accepts;
      this.maxVars := limits.maxVars;
      this.ignoreNonIncreasing := limits.ignoreNonIncreasing;
      this.cap := limits.repetitions;
      this.depth := 128;
      this.widest := limits.width;
      this.columns := seq(|roots|, i requires 0 <= i < |roots| => Cursor(roots[i], roots[i], [], false, false));
      this.count, this.start, this.clock := 0, 0, 0;
      this.repetitions := limits.repetitions;
      this.width := limits.width;
      this.rows, this.log := [], [];
      new;
      NothingQueued(columns);
    }

    /** One request.  A response longer than the request allows is a failure. */
    method Request(oids: seq<Oid>, next: bool, ghost view: map<Oid, V>) returns (r: Response<V>)
      requires 1 <= |oids| <= widest && (next ==> |oids| == 1) && Modest()
      requires if log == [] then repetitions == cap else forall tooBig :: Succeeds(log[|log| - 1], Sent(oids, repetitions, next, tooBig))
      modifies this`clock, this`log
      ensures clock > old(clock) && Modest()
      ensures log == old(log) || log == old(log) + [Sent(oids, repetitions, next, r.TooBig?)]
      ensures !r.Failure? ==> log == old(log) + [Sent(oids, repetitions, next, r.TooBig?)]
      ensures r.Items? ==> |r.items| <= (if next then |oids| else |oids| * repetitions)
      ensures r.Items? && HonestAgent(agent, view) ==> HonestItems(view, oids, r.items)
      ensures !cancelled(old(clock)) ==>
        var a := agent(old(clock), oids, repetitions, next);
        r == if a.Items? && |a.items| > (if next then |oids| else |oids| * repetitions) then Failure else a
      ensures cancelled(old(clock)) ==> r == Failure && log == old(log)
      ensures r.Failure? || (r.TooBig? && next) ==> Interrupted(cancelled) || Refusing(agent)
    {
      if cancelled(clock) {
        clock := clock + 1;
        return Failure;
      }
      r := agent(clock, oids, repetitions, next);
      PoliteOne(log, widest, cap, Sent(oids, repetitions, next, r.TooBig?));
      log := log + [Sent(oids, repetitions, next, r.TooBig?)];
      assert Refuses(r, |oids|, repetitions, next) ==> Refusing(agent);
      clock := clock + 1;
      var limit := if next then |oids| else |oids| * repetitions;
      if r.Items? && |r.items| > limit { r := Failure; }
    }

    /** One varbind into one column: the new cursor, whether it moved, and whether it counts
        against the variable budget. */
    method Take(c: Cursor<V>, rv: VarBind<V>, ghost last: Oid, ghost view: map<Oid, V>)
      returns (c': Cursor<V>, moved: bool, counts: bool, err: Option<WalkError>)
      requires ColumnOk(c, last, cap) && |c.queue| < cap && depth >= 128
      ensures err.None? ==> ColumnOk(c', last, cap) && c'.root == c.root && |c'.queue| <= |c.queue| + 1
      ensures err.None? && moved ==> !c.done && Remaining(c', depth) <= Remaining(c, depth)
      ensures err.None? && moved && Decodable(c.cursor) ==> Remaining(c', depth) < Remaining(c, depth)
      ensures !moved ==> c' == c
      ensures err.None? ==> |c'.queue| <= |c.queue| + (if counts then 1 else 0)
      ensures err.None? && Covers(view, c, last) && (!c.done ==> HonestAnswer(view, c.cursor, rv)) ==>
        Covers(view, c', last) && (!c'.done ==> c'.cursor == rv.oid)
      ensures err.None? && Covers(view, c, last) && (!c.done ==> HonestAnswer(view, c.cursor, rv)) ==>
        |Passed(view, c')| >= |Passed(view, c)| + (if counts then 1 else 0)
      ensures err.Some? ==> !c.done && (err.value == EmptyIndex || err.value == NotIncreasing)
      ensures !c.done && HonestAnswer(view, c.cursor, rv) ==> err.None? && moved
      ensures TakenAs(ignoreNonIncreasing, c, rv, c', moved, counts, err)
    {
      c', moved, counts, err := c, false, false, None;
      if c.done {
        return;
      }
      if HonestAnswer(view, c.cursor, rv) { HonestAdvances(view, c, rv, last, cap); }
      LessTotal(rv.oid, c.cursor);
      ghost var honest := Covers(view, c, last) && HonestAnswer(view, c.cursor, rv);
      if Leaves(c, rv) {
        c', moved := c.(done := true), true;
        if honest { LeavingMeansExhausted(view, c, rv, last, c'); }
        return;
      }
      if |rv.oid| == |c.root| {
        return c, false, false, Some(EmptyIndex);
      }
      var cmp := Compare(rv.oid, c.cursor);
      if cmp == 0 || (cmp < 0 && !ignoreNonIncreasing) {
        return c, false, false, Some(NotIncreasing);
      }
      if cmp < 0 {
        return;
      }
      c', moved, counts := c.(cursor := rv.oid), true, true;
      if !rv.binding.NoSuchInstance? { c' := c'.(queue := c.queue + [rv]); }
      AppendKeepsColumn(c, rv, last, cap, c');
      AdvanceShrinks(c, c', depth);
      if honest {
        AppendKeepsCover(view, c, rv, last, c');
        PassedOne(view, c, c');
      }
    }

    /** Distributes one response over its columns.  Returns which slots made progress. */
    method Distribute(cols: seq<Cursor<V>>, seen: nat, ids: seq<nat>, oids: seq<Oid>, items: seq<VarBind<V>>, reps: nat,
                      ghost last: Oid, ghost view: map<Oid, V>)
      returns (cols': seq<Cursor<V>>, seen': nat, progress: seq<bool>, err: Option<WalkError>)
      requires depth >= 128 && AllOk(cols, last, cap) && ids != [] && Fetchable(cols, ids) && |oids| == |ids|
      requires forall k :: 0 <= k < |ids| ==> oids[k] == cols[ids[k]].cursor && Decodable(oids[k])
      requires RootsAre(cols, roots)
      requires 1 <= reps <= cap && |items| <= Times(reps, |ids|) && (maxVars > 0 ==> seen <= maxVars)
      ensures AllOk(cols', last, cap) && (err.None? && maxVars > 0 ==> seen' <= maxVars)
      ensures Evolves(cols, cols', ids, depth) && (err.None? ==> Queued(cols') + seen <= Queued(cols) + seen')
      ensures AllTracked(cols, cols', ids, progress, depth)
      ensures HonestItems(view, oids, items) && Sound(view, cols, last, seen) && err.None? ==> Sound(view, cols', last, seen')
      ensures err.Some? ==> (err.value == BudgetExceeded && maxVars > 0) || err.value == EmptyIndex || err.value == NotIncreasing
      ensures HonestItems(view, oids, items) && Sound(view, cols, last, seen) ==>
        if err.Some? then err.value == BudgetExceeded && Excuses(view).crowded else items == [] || FirstMoved(progress)
    {
      hide AllOk, Evolves, AllTracked, AllCover, HonestItems, Mid, Times, FirstMoved, Decodable, Fetchable, Queued, PlacedAs, Found, Instances, RootsAre;
      progress := seq(|ids|, _ => false);
      err, cols', seen' := None, cols, seen;
      var pos := 0;
      ghost var round: nat, at: nat := 0, 0;
      ghost var honest := HonestItems(view, oids, items) && Sound(view, cols, last, seen);
      MidStart(cols, ids, oids, items, progress, last, cap, depth, view, honest);
      while pos < |items|
        invariant 0 <= pos <= |items| && |progress| == |ids| == |oids|
        invariant (maxVars > 0 ==> seen' <= maxVars) && err.None? && Queued(cols') + seen <= Queued(cols) + seen'
        invariant honest ==> seen' <= Found(view, cols')
        invariant Mid(cols, cols', ids, oids, items, progress, pos, round, at, last, cap, depth, view, honest)
      {
        ghost var before, moved := cols', progress;
        cols', seen', progress, err := Place(cols', seen', ids, items[pos], pos, progress, cols, oids, items, reps, round, at, last, view, honest);
        if err.Some? {
          MidEnd(cols, before, ids, oids, items, moved, pos, round, at, last, cap, depth, view, honest);
          return;
        }
        pos := pos + 1;
        round, at := if at + 1 == |ids| then round + 1 else round, NextSlot(at, |ids|);
      }
      MidEnd(cols, cols', ids, oids, items, progress, pos, round, at, last, cap, depth, view, honest);
    }

    /** The varbind at `pos` goes to the column whose slot it is in, and counts against the budget. */
    method Place(now: seq<Cursor<V>>, seen: nat, ids: seq<nat>, rv: VarBind<V>, pos: nat, progress: seq<bool>,
                 ghost cols: seq<Cursor<V>>, ghost oids: seq<Oid>, ghost items: seq<VarBind<V>>, ghost reps: nat,
                 ghost round: nat, ghost at: nat, ghost last: Oid, ghost view: map<Oid, V>, ghost honest: bool)
      returns (now': seq<Cursor<V>>, seen': nat, progress': seq<bool>, err: Option<WalkError>)
      requires pos < |items| <= Times(reps, |ids|) && rv == items[pos] && reps <= cap && (maxVars > 0 ==> seen <= maxVars)
      requires ids != [] && |progress| == |ids| == |oids|
      requires Mid(cols, now, ids, oids, items, progress, pos, round, at, last, cap, depth, view, honest)
      requires RootsAre(cols, roots) && (honest ==> seen <= Found(view, now))
      ensures |progress'| == |progress| && (err.None? && maxVars > 0 ==> seen' <= maxVars)
      ensures err.Some? ==> now' == now && progress' == progress
      ensures err.None? ==> at < |ids| && PlacedAs(ignoreNonIncreasing, now, ids[at], rv, now', seen, seen')
      ensures err.None? ==> Queued(now') + seen <= Queued(now) + seen'
      ensures err.Some? ==> (err.value == BudgetExceeded && maxVars > 0) || err.value == EmptyIndex || err.value == NotIncreasing
      ensures err.Some? && honest ==> err.value == BudgetExceeded && Excuses(view).crowded
      ensures err.None? && honest ==> seen' <= Found(view, now')
      ensures err.None? ==> at < |ids| && Mid(cols, now', ids, oids, items, progress', pos + 1,
                                              if at + 1 == |ids| then round + 1 else round, NextSlot(at, |ids|), last, cap, depth, view, honest)
    {
      MidSlot(cols, now, ids, oids, items, progress, pos, round, at, last, cap, depth, view, honest, reps);
      MidRoots(cols, now, ids, oids, items, progress, pos, round, at, last, cap, depth, view, honest, roots);
      assert depth >= 128;
      hide Mid, ColumnOk, Covers, Remaining, SlotAt, Times, HonestAnswer, TakenAs, Decodable, Queued, Passed, Found, Instances;
      now', seen', progress', err := now, seen, progress, None;
      var slot := SlotAt(pos, |ids|);
      var c', moved, counts, failed := Take(now[ids[slot]], rv, last, view);
      if failed.Some? { return now, seen, progress, failed; }
      FoundUpdate(view, now, ids[slot], c');
      FoundFits(view, now[ids[slot] := c'], roots);
      if counts {
        seen' := seen' + 1;
        if maxVars > 0 && seen' > maxVars { return now, seen', progress, Some(BudgetExceeded); }
      }
      MidStep(cols, now, ids, oids, items, progress, pos, round, at, last, cap, depth, view, honest, c', moved);
      QueuedUpdate(now, ids[slot], c');
      now' := now[ids[slot] := c'];
      progress' := if moved then progress[slot := true] else progress;
    }

    /** The names to request next, if the codec can carry them all. */
    method Names(ids: seq<nat>) returns (oids: seq<Oid>, ok: bool)
      requires forall k :: 0 <= k < |ids| ==> ids[k] < |columns|
      ensures !ok ==> exists k :: 0 <= k < |ids| && !Decodable(columns[ids[k]].cursor)
      ensures ok ==> |oids| == |ids| && forall k :: 0 <= k < |ids| ==> oids[k] == columns[ids[k]].cursor && Decodable(oids[k])
    {
      oids, ok := [], true;
      for k := 0 to |ids|
        invariant |oids| == k && forall i :: 0 <= i < k ==> oids[i] == columns[ids[i]].cursor && Decodable(oids[i])
      {
        if !Decodable(columns[ids[k]].cursor) { return [], false; }
        oids := oids + [columns[ids[k]].cursor];
      }
    }

    /** Requests the next values of `ids` and distributes them: shrinking repetitions, splitting
        the request or degrading to GETNEXT on tooBig, and recovering columns that made no
        progress one by one. */
    method Fetch(ids: seq<nat>, recovery: bool, ghost last: Oid, ghost view: map<Oid, V>) returns (err: Option<WalkError>)
      requires Valid(last) && Ready(|ids|) && 1 <= |ids| <= widest && Fetchable(columns, ids) && (recovery ==> |ids| == 1)
      modifies this`columns, this`count, this`start, this`repetitions, this`width, this`clock, this`log
      ensures AllOk(columns, last, cap) && Modest() && clock >= old(clock) && (err.None? ==> Valid(last) && Answered())
      ensures Evolves(old(columns), columns, ids, depth)
      ensures err.None? ==> Ahead(old(columns), columns, ids, 1, depth) && clock > old(clock)
      ensures err.None? && HonestAgent(agent, view) && Sound(view, old(columns), last, old(count)) ==> Sound(view, columns, last, count)
      ensures err.Some? ==> Caused(err.value, agent, cancelled, maxVars, HonestAgent(agent, view) && Sound(view, old(columns), last, old(count)), Excuses(view))
      decreases |ids|, if recovery then 0 else 1, 2
    {
      hide ColumnOk, Covers, Remaining, Tracked, HonestItems, SlotAt, Times, Caused, HonestAgent, AllCover, Sound, Decodable, Counted, Queued, Held, Polite, RootsAre,
        Succeeds, Unsendable, Instances, Refusing, Interrupted, Silent;
      if |ids| > 1 {
        var degraded := exists k | 0 <= k < |ids| :: columns[ids[k]].getNext;
        if degraded {
          err := FetchEach(ids, recovery, last, view);
          return;
        }
      }
      var oids, ok := Names(ids);
      ghost var base, honest := columns, HonestAgent(agent, view) && Sound(view, columns, last, count);
      if !ok {
        SoundIs(view, columns, last, count);
        if honest { NameIsOdd(columns, ids, last, view); }
        SimpleCauses(agent, cancelled, maxVars, honest, Excuses(view));
        return Some(Undecodable);
      }
      var answer := Ask(ids, oids, recovery, last, view);
      ghost var asked, seen := columns, count;
      ModeOnly(base, asked, ids, last, cap, view, seen, depth);
      match answer {
        case Refused =>
          CausedForLess(RequestFailed, agent, cancelled, maxVars, true, honest, Excuses(view));
          err := Some(RequestFailed);
        case Split =>
          err := FetchHalves(ids, |ids| / 2, last, view);
        case Got(items) =>
          err := Deliver(ids, oids, items, recovery, asked, last, view);
          if err.Some? { CausedForLess(err.value, agent, cancelled, maxVars, HonestAgent(agent, view) && Sound(view, asked, last, seen), honest, Excuses(view)); }
          EvolvesThenEvolves(base, asked, columns, ids, ids, ids, depth);
          if err.None? { AheadThen(base, asked, columns, ids, 1, depth); }
      }
    }

    /** A name that cannot be sent is a root or an honest agent's instance. */
    lemma NameIsOdd(cols: seq<Cursor<V>>, ids: seq<nat>, last: Oid, view: map<Oid, V>)
      requires RootsAre(cols, roots) && Fetchable(cols, ids) && AllCover(view, cols, last)
      requires exists k :: 0 <= k < |ids| && !Decodable(cols[ids[k]].cursor)
      ensures Excuses(view).odd
    {
      var k :| 0 <= k < |ids| && !Decodable(cols[ids[k]].cursor);
      CursorIsOdd(view, cols, roots, ids[k], last);
    }

    /** How many of the columns asked for an answer reached; one that brought nothing is asked for all again. */
    function Reached(items: seq<VarBind<V>>, ids: seq<nat>): (n: nat)
      ensures n <= |ids| && (ids != [] ==> n > 0)
    {
      if items == [] then |ids| else Min(|items|, |ids|)
    }

    /** Distributes an answer and recovers the columns it left without progress. */
    method Deliver(ids: seq<nat>, oids: seq<Oid>, items: seq<VarBind<V>>, recovery: bool,
                   ghost asked: seq<Cursor<V>>, ghost last: Oid, ghost view: map<Oid, V>) returns (err: Option<WalkError>)
      requires Valid(last) && Answered() && columns == asked && 1 <= |ids| <= widest && Fetchable(columns, ids) && (recovery ==> |ids| == 1) && |oids| == |ids|
      requires forall k :: 0 <= k < |ids| ==> oids[k] == columns[ids[k]].cursor && Decodable(oids[k])
      requires |items| <= Times(repetitions, |ids|) && (HonestAgent(agent, view) ==> HonestItems(view, oids, items))
      requires recovery && items == [] ==> Silent(agent)
      modifies this`columns, this`count, this`start, this`repetitions, this`width, this`clock, this`log
      ensures AllOk(columns, last, cap) && Modest() && clock >= old(clock) && (err.None? ==> Valid(last) && Answered())
      ensures Evolves(asked, columns, ids, depth)
      ensures err.None? ==> Ahead(asked, columns, ids, Reached(items, ids), depth)
      ensures err.None? && clock == old(clock) ==>
        start == if items == [] then old(start) else SlotAt(ids[Min(|items|, |ids|) - 1] + 1, |columns|)
      ensures err.None? && HonestAgent(agent, view) && Sound(view, asked, last, old(count)) ==> Sound(view, columns, last, count)
      ensures err.Some? ==> Caused(err.value, agent, cancelled, maxVars, HonestAgent(agent, view) && Sound(view, asked, last, old(count)), Excuses(view))
      decreases |ids|, if recovery then 0 else 1, 1
    {
      hide ColumnOk, Covers, Remaining, Tracked, HonestItems, SlotAt, Times, HonestAgent, AllCover, Sound, Decodable, Caused, Polite, RootsAre, Counted, Silent,
        Queued, Held, Instances, Unsendable, Moves, Interrupted, Refusing;
      ghost var honest := HonestAgent(agent, view) && Sound(view, asked, last, old(count));
      SimpleCauses(agent, cancelled, maxVars, honest, Excuses(view));
      var progress;
      columns, count, progress, err := Distribute(columns, count, ids, oids, items, repetitions, last, view);
      if err.Some? { return; }
      assert |columns| == |asked| && |progress| == |ids|;
      EvolvesCounted(rows, asked, columns, ids, roots, old(count), count, depth);
      hide AllTracked, Evolves, AllOk;
      var served := Min(|items|, |ids|);
      if served > 0 { start := SlotAt(ids[served - 1] + 1, |columns|); }
      if recovery && !progress[0] { StallCause(agent, cancelled, maxVars, honest, Excuses(view)); }
      err := Recover(ids, progress, Reached(items, ids), recovery, asked, last, view, honest);
    }

    /** Sends the request, halving repetitions on tooBig and then degrading a lone column to GETNEXT.
        A request for several columns that is still too big has to be split. */
    method Ask(ids: seq<nat>, oids: seq<Oid>, recovery: bool, ghost last: Oid, ghost view: map<Oid, V>) returns (r: Answer<V>)
      requires Valid(last) && Ready(|ids|) && 1 <= |ids| <= widest && Fetchable(columns, ids) && |oids| == |ids| && (recovery ==> |ids| == 1)
      requires |ids| > 1 ==> forall k :: 0 <= k < |ids| ==> !columns[ids[k]].getNext
      modifies this`columns, this`repetitions, this`width, this`clock, this`log
      ensures AllOk(columns, last, cap) && Modest() && (!r.Refused? ==> Valid(last)) && SameButMode(old(columns), columns, ids)
      ensures r.Split? ==> |ids| > 1 && columns == old(columns) && width <= |ids| / 2 && Ready(|ids| / 2)
      ensures r.Got? ==> Answered()
      ensures clock > old(clock)
      ensures r.Got? ==> |r.items| <= Times(repetitions, |ids|)
      ensures r.Got? && HonestAgent(agent, view) ==> HonestItems(view, oids, r.items)
      ensures r.Refused? ==> Caused(RequestFailed, agent, cancelled, maxVars, true, Excuses(view))
      ensures r.Got? && recovery && |oids| == 1 && r.items == [] ==> Silent(agent)
    {
      hide HonestItems, HonestAgent, Refusing, Interrupted, AllOk, Counted, Queued, Held, RootsAre, ColumnOk, Covers, AllCover, Sound, Evolves, Times, Decodable;
      ghost var base := columns;
      while true
        invariant SameButMode(base, columns, ids) && (|ids| > 1 ==> columns == base) && Valid(last) && clock >= old(clock)
        invariant var next := recovery || (|ids| == 1 && columns[ids[0]].getNext);
          if log == [] then repetitions == cap else forall tooBig :: Succeeds(log[|log| - 1], Sent(oids, repetitions, next, tooBig))
        decreases repetitions, if |ids| == 1 && columns[ids[0]].getNext then 0 else 1
      {
        var next := recovery || (|ids| == 1 && columns[ids[0]].getNext);
        var answer := Request(oids, next, view);
        if answer.Items? {
          FitsRequest(repetitions, |ids|, if next then |ids| else |ids| * repetitions);
          return Got(answer.items);
        }
        if answer.Failure? || next { return Refused; }
        if repetitions > 1 {
          repetitions := repetitions / 2;
        } else if |ids| > 1 {
          width := Min(width, |ids| / 2);
          return Split;
        } else {
          ModeCounted(rows, columns, roots, ids, count);
          ModeOnly(base, columns[ids[0] := columns[ids[0]].(getNext := true)], ids, last, cap, view, count, depth);
          columns := columns[ids[0] := columns[ids[0]].(getNext := true)];
        }
      }
    }

    /** A request split in two after tooBig at one repetition. */
    method FetchHalves(ids: seq<nat>, half: nat, ghost last: Oid, ghost view: map<Oid, V>) returns (err: Option<WalkError>)
      requires Valid(last) && Ready(half) && 1 <= half < |ids| <= widest && Fetchable(columns, ids)
      modifies this`columns, this`count, this`start, this`repetitions, this`width, this`clock, this`log
      ensures AllOk(columns, last, cap) && Modest() && clock >= old(clock) && (err.None? ==> Valid(last) && Answered())
      ensures Evolves(old(columns), columns, ids, depth)
      ensures err.None? ==> Ahead(old(columns), columns, ids, 1, depth) && Ahead(old(columns), columns, ids[half..], 1, depth)
      ensures err.None? && HonestAgent(agent, view) && Sound(view, old(columns), last, old(count)) ==> Sound(view, columns, last, count)
      ensures err.Some? ==> Caused(err.value, agent, cancelled, maxVars, HonestAgent(agent, view) && Sound(view, old(columns), last, old(count)), Excuses(view))
      decreases |ids|, 0, 0
    {
      hide ColumnOk, Covers, Remaining, AllOk, AllCover, Sound, HonestAgent, Caused, Decodable, Ahead, RootsAre, Counted, Queued, Held;
      ghost var base, baseCount := columns, count;
      err := Fetch(ids[..half], false, last, view);
      ghost var middle, middleCount := columns, count;
      EvolvesThenEvolves(base, base, middle, [], ids[..half], ids, depth);
      if err.Some? { return; }
      SecondHalf(base, middle, ids, half, depth);
      err := Fetch(ids[half..], false, last, view);
      if err.Some? {
        CausedForLess(err.value, agent, cancelled, maxVars, HonestAgent(agent, view) && Sound(view, middle, last, middleCount),
                      HonestAgent(agent, view) && Sound(view, base, last, baseCount), Excuses(view));
      }
      EvolvesThenEvolves(base, middle, columns, ids[..half], ids[half..], ids, depth);
      if err.None? {
        AheadThen(base, middle, columns, ids[..half], 1, depth);
        AheadOfAll(base, columns, ids[..half], ids, depth);
        AheadThen(base, middle, columns, ids[half..], 1, depth);
      }
    }

    /** A batch holding a column that degraded to GETNEXT is fetched one column at a time. */
    method FetchEach(ids: seq<nat>, recovery: bool, ghost last: Oid, ghost view: map<Oid, V>) returns (err: Option<WalkError>)
      requires Valid(last) && Ready(1) && 1 < |ids| <= widest && Fetchable(columns, ids)
      modifies this`columns, this`count, this`start, this`repetitions, this`width, this`clock, this`log
      ensures AllOk(columns, last, cap) && Modest() && clock >= old(clock) && (err.None? ==> Valid(last) && Answered())
      ensures Evolves(old(columns), columns, ids, depth)
      ensures err.None? ==> Ahead(old(columns), columns, ids, |ids|, depth) && clock > old(clock)
      ensures err.None? && HonestAgent(agent, view) && Sound(view, old(columns), last, old(count)) ==> Sound(view, columns, last, count)
      ensures err.Some? ==> Caused(err.value, agent, cancelled, maxVars, HonestAgent(agent, view) && Sound(view, old(columns), last, old(count)), Excuses(view))
      decreases |ids|, if recovery then 0 else 1, 0
    {
      hide ColumnOk, Covers, Remaining, AllOk, AllCover, Sound, HonestAgent, Caused, Decodable, Ahead, RootsAre, Counted, Queued, Held;
      ghost var base, baseCount := columns, count;
      NoneAhead(base, ids, depth);
      err := None;
      var j := 0;
      while j < |ids|
        invariant 0 <= j <= |ids| && Valid(last) && Evolves(base, columns, ids[..j], depth)
        invariant Ahead(base, columns, ids, j, depth)
        invariant err.None? && clock >= old(clock) + (if j > 0 then 1 else 0) && (if j > 0 then Answered() else Ready(1))
        invariant HonestAgent(agent, view) && Sound(view, base, last, baseCount) ==> Sound(view, columns, last, count)
      {
        ghost var before, beforeCount := columns, count;
        Untouched(base, before, ids, j, depth);
        err := Fetch([ids[j]], recovery, last, view);
        EvolvesThenEvolves(base, before, columns, ids[..j], [ids[j]], ids[..j + 1], depth);
        if err.None? { NextAhead(base, before, columns, ids, j, depth); }
        if err.Some? {
          EvolvesThenEvolves(base, before, columns, ids[..j], [ids[j]], ids, depth);
          CausedForLess(err.value, agent, cancelled, maxVars, HonestAgent(agent, view) && Sound(view, before, last, beforeCount),
                        HonestAgent(agent, view) && Sound(view, base, last, baseCount), Excuses(view));
          return;
        }
        j := j + 1;
      }
      assert ids[..j] == ids;
    }

    /** Fetches each of the first `served` columns that made no progress on its own. */
    method Recover(ids: seq<nat>, progress: seq<bool>, served: nat, recovery: bool,
                   ghost asked: seq<Cursor<V>>, ghost last: Oid, ghost view: map<Oid, V>, ghost honest: bool) returns (err: Option<WalkError>)
      requires Valid(last) && Answered() && Fetchable(asked, ids) && 1 <= served <= |ids| <= widest && (recovery ==> |ids| == 1)
      requires Evolves(asked, columns, ids, depth) && AllTracked(asked, columns, ids, progress, depth)
      requires honest ==> HonestAgent(agent, view) && Sound(view, columns, last, count)
      requires recovery && !progress[0] ==> Caused(NoProgress, agent, cancelled, maxVars, honest, Excuses(view))
      modifies this`columns, this`count, this`start, this`repetitions, this`width, this`clock, this`log
      ensures AllOk(columns, last, cap) && Modest() && clock >= old(clock) && (err.None? ==> Valid(last) && Answered())
      ensures Evolves(asked, columns, ids, depth)
      ensures err.None? ==> Ahead(asked, columns, ids, served, depth)
      ensures err.None? && clock == old(clock) ==> start == old(start)
      ensures err.None? && HonestAgent(agent, view) && Sound(view, old(columns), last, old(count)) ==> Sound(view, columns, last, count)
      ensures err.Some? ==> Caused(err.value, agent, cancelled, maxVars, honest, Excuses(view))
      decreases |ids|, if recovery then 0 else 1, 0
    {
      hide ColumnOk, Covers, Remaining, Caused, HonestAgent, AllCover, Sound, Counted, Queued, Held;
      err := None;
      var slot := 0;
      while slot < |ids|
        invariant 0 <= slot <= |ids| && Valid(last) && Evolves(asked, columns, ids, depth) && err.None?
        invariant Ahead(asked, columns, ids, Min(slot, served), depth)
        invariant clock >= old(clock) && (clock == old(clock) ==> start == old(start)) && Answered()
        invariant AllTracked(asked, columns, ids[slot..], progress[slot..], depth)
        invariant HonestAgent(agent, view) && Sound(view, old(columns), last, old(count)) ==> Sound(view, columns, last, count)
      {
        ghost var before, beforeCount := columns, count;
        assert Tracked(asked[ids[slot..][0]], before[ids[slot..][0]], progress[slot..][0], depth);
        if !progress[slot] && slot < served {
          if recovery { return Some(NoProgress); }
          err := Fetch([ids[slot]], true, last, view);
          EvolvesThenEvolves(asked, before, columns, ids, [ids[slot]], ids, depth);
          if err.Some? {
            CausedForLess(err.value, agent, cancelled, maxVars, HonestAgent(agent, view) && Sound(view, before, last, beforeCount), honest, Excuses(view));
            return;
          }
        }
        OthersTracked(asked, before, columns, ids, progress, slot, depth);
        if slot < served {
          if progress[slot] { OneMoreAhead(asked, before, columns, ids, slot, depth); } else { NextAhead(asked, before, columns, ids, slot, depth); }
        } else { AheadThen(asked, before, columns, ids, served, depth); }
        slot := slot + 1;
      }
    }

    /** The live columns whose queues have drained, starting from where the last response ended. */
    method Drained() returns (ids: seq<nat>)
      requires columns == [] || start < |columns|
      ensures Fetchable(columns, ids)
      ensures forall i :: 0 <= i < |columns| && !columns[i].done && columns[i].queue == [] ==> i in ids
      ensures InTurn(ids, start, |columns|)
    {
      hide SlotAt;
      ids := [];
      ghost var n := |columns|;
      for off := 0 to |columns|
        invariant Fetchable(columns, ids) && InTurn(ids, start, n)
        invariant forall k :: 0 <= k < |ids| ==> Visited(start, ids[k], off, n)
        invariant forall i: nat :: i < n && Visited(start, i, off, n) && !columns[i].done && columns[i].queue == [] ==> i in ids
      {
        Wrap(start, off, n);
        var i := SlotAt(start + off, |columns|);
        if !columns[i].done && columns[i].queue == [] {
          ids := ids + [i];
        }
      }
    }

    /** Fetches until every live column has a value queued. */
    method Fill(ghost last: Oid, ghost view: map<Oid, V>) returns (err: Option<WalkError>)
      requires Valid(last) && Answered()
      modifies this`columns, this`count, this`start, this`repetitions, this`width, this`clock, this`log
      ensures AllOk(columns, last, cap) && Modest() && clock >= old(clock) && (err.None? ==> Valid(last) && Answered())
      ensures Forward(old(columns), columns, depth)
      ensures err.None? ==> columns == old(columns) || Gains(old(columns), columns, depth)
      ensures err.None? ==> forall i :: 0 <= i < |columns| ==> columns[i].done || columns[i].queue != []
      ensures err.None? && HonestAgent(agent, view) && Sound(view, old(columns), last, old(count)) ==> Sound(view, columns, last, count)
      ensures err.Some? ==> Caused(err.value, agent, cancelled, maxVars, HonestAgent(agent, view) && Sound(view, old(columns), last, old(count)), Excuses(view))
    {
      hide ColumnOk, Covers, Remaining, Total;
      ghost var base, baseCount := columns, count;
      while true
        invariant Valid(last) && Answered() && Forward(base, columns, depth) && clock >= old(clock)
        invariant columns == base || Gains(base, columns, depth)
        invariant HonestAgent(agent, view) && Sound(view, base, last, baseCount) ==> Sound(view, columns, last, count)
        decreases Total(columns, depth)
      {
        var ids := Drained();
        if ids == [] { return None; }
        ghost var before, beforeCount := columns, count;
        err := FetchBatches(ids, last, view);
        ForwardThen(base, before, columns, depth);
        if err.Some? { return; }
        AheadGains(before, columns, ids, 1, depth);
        TotalShrinks(before, columns, depth);
      }
    }

    /** Fetches `ids` in requests of at most the current width. */
    method FetchBatches(all: seq<nat>, ghost last: Oid, ghost view: map<Oid, V>) returns (err: Option<WalkError>)
      requires Valid(last) && Answered() && all != [] && Fetchable(columns, all)
      modifies this`columns, this`count, this`start, this`repetitions, this`width, this`clock, this`log
      ensures AllOk(columns, last, cap) && Modest() && clock >= old(clock) && (err.None? ==> Valid(last) && Answered())
      ensures Forward(old(columns), columns, depth)
      ensures err.None? ==> Ahead(old(columns), columns, all, 1, depth)
      ensures err.None? && HonestAgent(agent, view) && Sound(view, old(columns), last, old(count)) ==> Sound(view, columns, last, count)
      ensures err.Some? ==> Caused(err.value, agent, cancelled, maxVars, HonestAgent(agent, view) && Sound(view, old(columns), last, old(count)), Excuses(view))
    {
      hide ColumnOk, Covers, Remaining, AllOk, AllCover, Sound, HonestAgent, Caused, Counted, RootsAre, Ahead;
      ghost var base, baseCount := columns, count;
      var ids := all;
      err := None;
      while ids != []
        invariant Valid(last) && Answered() && Forward(base, columns, depth) && Fetchable(columns, ids) && err.None? && clock >= old(clock)
        invariant if ids == all then columns == base else Ahead(base, columns, all, 1, depth)
        invariant HonestAgent(agent, view) && Sound(view, base, last, baseCount) ==> Sound(view, columns, last, count)
        decreases |ids|
      {
        var n := Min(|ids|, width);
        ghost var before, beforeCount := columns, count;
        err := Fetch(ids[..n], false, last, view);
        ForwardThen(base, before, columns, depth);
        if err.None? {
          if ids == all { AheadOfAll(before, columns, ids[..n], all, depth); }
          AheadThen(base, before, columns, all, 1, depth);
        }
        if err.Some? {
          CausedForLess(err.value, agent, cancelled, maxVars, HonestAgent(agent, view) && Sound(view, before, last, beforeCount),
                        HonestAgent(agent, view) && Sound(view, base, last, baseCount), Excuses(view));
          return;
        }
        SecondHalf(before, columns, ids, n, depth);
        ids := ids[n..];
      }
    }

    /** The smallest index at the head of any queue. */
    method SelectIndex() returns (index: Option<Oid>)
      requires forall i :: 0 <= i < |columns| && columns[i].queue != [] ==> HasPrefix(columns[i].queue[0].oid, columns[i].root)
      ensures index.None? <==> forall i :: 0 <= i < |columns| ==> columns[i].queue == []
      ensures index.Some? ==> exists i :: 0 <= i < |columns| && Heads(columns[i], index.value)
      ensures index.Some? ==> forall i :: 0 <= i < |columns| ==> NotBefore(columns[i], index.value)
    {
      index := None;
      for k := 0 to |columns|
        invariant index.None? <==> forall i :: 0 <= i < k ==> columns[i].queue == []
        invariant index.Some? ==> exists i :: 0 <= i < k && Heads(columns[i], index.value)
        invariant index.Some? ==> forall i :: 0 <= i < k ==> NotBefore(columns[i], index.value)
      {
        var c := columns[k];
        if c.queue != [] {
          var suffix := c.queue[0].oid[|c.root|..];
          if index.None? {
            index := Some(suffix);
          } else {
            var cmp := Compare(suffix, index.value);
            if cmp < 0 {
              forall i | 0 <= i < k ensures NotBefore(columns[i], suffix) {
                if columns[i].queue != [] {
                  AtMostTransitive(suffix, index.value, columns[i].queue[0].oid[|columns[i].root|..]);
                }
              }
              index := Some(suffix);
            }
          }
        }
      }
    }

    /** Pops the row at `index`: one cell for every column whose queue starts with it. */
    method PopRow(index: Oid) returns (cells: seq<Cell<V>>)
      modifies this`columns
      ensures |columns| == |old(columns)|
      ensures forall i :: 0 <= i < |columns| ==> columns[i] == Popped(old(columns)[i], index)
      ensures RowCells(old(columns), index, cells) && Queued(columns) + |cells| == Queued(old(columns))
    {
      ghost var base := columns;
      cells := [];
      PopNone(base, index);
      hide PoppedUpTo;
      for i := 0 to |columns|
        invariant |columns| == |base| && PoppedUpTo(base, columns, i, index, cells)
      {
        PopOne(base, columns, i, index, cells);
        var c := columns[i];
        if c.queue != [] && HasPrefix(c.queue[0].oid, c.root) && c.queue[0].oid[|c.root|..] == index {
          cells := cells + [Cell(i, c.queue[0])];
          columns := columns[i := c.(queue := c.queue[1..])];
        }
      }
      PopAll(base, columns, index, cells);
    }

    /** Everything the walk keeps between rows. */
    ghost predicate Between(view: map<Oid, V>)
      reads this
    {
      && Valid(LastIndex(rows)) && Answered() && RowsOk(rows, roots)
      && (HonestAgent(agent, view) ==> Sound(view, columns, LastIndex(rows), count) && RowsExact(view, rows, roots, LastIndex(rows)))
    }

    /** Refills the queues and takes the next row off them; no row means the walk is complete. */
    method NextRow(ghost view: map<Oid, V>) returns (next: Option<Row<V>>, err: Option<WalkError>)
      requires Between(view)
      modifies this`columns, this`count, this`start, this`repetitions, this`width, this`clock, this`log
      ensures Modest() && forall i :: 0 <= i < |columns| ==> |columns[i].queue| <= cap
      ensures err.None? && maxVars > 0 ==> count <= maxVars
      ensures err.None? && next.None? && HonestAgent(agent, view) ==> Complete(view, rows, roots)
      ensures err.Some? ==> Caused(err.value, agent, cancelled, maxVars, HonestAgent(agent, view), Excuses(view))
      ensures err.None? && next.Some? ==>
        && Valid(next.value.index) && Answered() && RowsOk(rows + [next.value], roots) && Counted(rows + [next.value], columns, count)
        && (HonestAgent(agent, view) ==>
              Sound(view, columns, next.value.index, count) && RowsExact(view, rows + [next.value], roots, next.value.index))
        && Total(columns, depth) <= old(Total(columns, depth))
        && (Total(columns, depth) == old(Total(columns, depth)) ==> Queued(columns) < old(Queued(columns)))
    {
      hide ColumnOk, Covers, Remaining, Total, Queued, RowOk, RowsOk, RowsExact, AllOk, AllCover, Sound, Complete, RowCells, Heads, NotBefore,
        DecodableIndex, HonestAgent, Caused, Counted;
      ghost var last, before, beforeCount := LastIndex(rows), columns, count;
      next := None;
      err := Fill(last, view);
      ghost var filled := columns;
      TotalShrinks(before, filled, depth);
      QueuesFit(filled, last, cap);
      if err.Some? {
        CausedForLess(err.value, agent, cancelled, maxVars, HonestAgent(agent, view) && Sound(view, before, last, beforeCount), HonestAgent(agent, view), Excuses(view));
        return;
      }
      next, err := TakeRow(view, last);
      SimpleCauses(agent, cancelled, maxVars, HonestAgent(agent, view), Excuses(view));
    }

    /** The next row off the filled queues. */
    method TakeRow(ghost view: map<Oid, V>, ghost last: Oid) returns (next: Option<Row<V>>, err: Option<WalkError>)
      requires Valid(last) && RowsOk(rows, roots) && last == LastIndex(rows)
      requires HonestAgent(agent, view) ==> Sound(view, columns, last, count) && RowsExact(view, rows, roots, last)
      requires forall i :: 0 <= i < |columns| ==> columns[i].done || columns[i].queue != []
      modifies this`columns
      ensures forall i :: 0 <= i < |columns| ==> |columns[i].queue| <= cap
      ensures err.Some? ==> err.value == Undecodable && columns == old(columns) && (HonestAgent(agent, view) ==> Excuses(view).odd)
      ensures err.None? && next.None? && HonestAgent(agent, view) ==> Complete(view, rows, roots)
      ensures err.None? && next.None? ==> columns == old(columns) && forall i :: 0 <= i < |columns| ==> columns[i].queue == []
      ensures err.None? && next.Some? ==>
        && Valid(next.value.index) && RowsOk(rows + [next.value], roots) && Counted(rows + [next.value], columns, count)
        && (HonestAgent(agent, view) ==>
              Sound(view, columns, next.value.index, count) && RowsExact(view, rows + [next.value], roots, next.value.index))
        && Total(columns, depth) <= old(Total(columns, depth)) && Queued(columns) < old(Queued(columns))
    {
      hide ColumnOk, Covers, Remaining, Total, Queued, RowOk, RowsOk, RowsExact, AllOk, AllCover, Sound, Complete, RowCells, Heads, NotBefore,
        DecodableIndex, HonestAgent;
      ghost var filled := columns;
      next, err := None, None;
      SoundIs(view, filled, last, count);
      QueuesFit(filled, last, cap);
      HeadsBelowRoots(filled, last, cap);
      var index := SelectIndex();
      if index.None? {
        if HonestAgent(agent, view) { ExhaustedIsComplete(view, filled, rows, roots, last); }
        return;
      }
      if !DecodableIndex(index.value) {
        if HonestAgent(agent, view) { IndexIsOdd(view, filled, roots, index.value, last); }
        return None, Some(Undecodable);
      }
      var cells := PopRow(index.value);
      PopShrinks(filled, columns, index.value, depth);
      PopKeepsOk(filled, columns, index.value, last, cap);
      QueuesFit(columns, index.value, cap);
      RowExtends(rows, roots, filled, index.value, cells, cap);
      FoundSame(view, filled, columns);
      SoundIs(view, columns, index.value, count);
      if HonestAgent(agent, view) { RowExact(view, rows, roots, filled, columns, index.value, cells, cap); }
      HeldOne(rows, Row(index.value, cells));
      next := Some(Row(index.value, cells));
    }

    lemma CausedAtOnce(view: map<Oid, V>)
      ensures Interrupted(cancelled) ==> Caused(Cancelled, agent, cancelled, maxVars, HonestAgent(agent, view), Excuses(view))
    {
    }

    /** One turn of the walk: the next row, if any, is yielded to the consumer. */
    method Turn(ghost view: map<Oid, V>) returns (outcome: Outcome)
      requires Between(view)
      modifies this
      ensures Modest() && RowsOk(rows, roots) && forall i :: 0 <= i < |columns| ==> |columns[i].queue| <= cap
      ensures maxVars > 0 ==> Held(rows) <= maxVars && (!outcome.Failed? ==> count <= maxVars)
      ensures outcome == Exhausted && HonestAgent(agent, view) ==> Complete(view, rows, roots)
      ensures outcome.Failed? ==> Caused(outcome.error, agent, cancelled, maxVars, HonestAgent(agent, view), Excuses(view))
      ensures cancelled(old(clock)) ==> outcome == Failed(Cancelled) && rows == old(rows) && log == old(log)
      ensures outcome == Yielded || outcome == Stopped ==>
        && |rows| == |old(rows)| + 1 && old(rows) <= rows && clock > 0 && !cancelled(clock - 1)
        && (outcome == Yielded <==> accepts(|rows|))
      ensures outcome.Failed? || outcome == Exhausted ==> rows == old(rows)
      ensures outcome == Yielded ==> Between(view) && Total(columns, depth) <= old(Total(columns, depth))
      ensures outcome == Yielded && Total(columns, depth) == old(Total(columns, depth)) ==> Queued(columns) < old(Queued(columns))
    {
      hide ColumnOk, Covers, Remaining, Total, Queued, RowOk, RowsOk, RowsExact, AllOk, AllCover, Sound, Complete, HonestAgent, Caused, Counted, Held, RootsAre;
      CausedAtOnce(view);
      CountedBound(rows, columns, count);
      QueuesFit(columns, LastIndex(rows), cap);
      var stop := cancelled(clock);
      assert stop ==> Interrupted(cancelled);
      clock := clock + 1;
      if stop { return Failed(Cancelled); }
      var next, err := NextRow(view);
      if err.Some? { return Failed(err.value); }
      if next.None? { return Exhausted; }
      stop := cancelled(clock);
      assert stop ==> Interrupted(cancelled);
      clock := clock + 1;
      if stop { return Failed(Cancelled); }
      CountedBound(rows + [next.value], columns, count);
      rows := rows + [next.value];
      return if accepts(|rows|) then Yielded else Stopped;
    }

    /** The whole walk.  It ends for every agent and every consumer. */
    method Run(ghost view: map<Oid, V>) returns (outcome: Outcome)
      requires Valid([]) && Answered() && rows == [] && count == 0 && |columns| == |roots|
      requires forall i :: 0 <= i < |roots| ==> columns[i] == Cursor(roots[i], roots[i], [], false, false)
      modifies this
      ensures outcome != Yielded && Modest()
      ensures TookAll(accepts, |rows| - 1) && (outcome == Stopped <==> !TookAll(accepts, |rows|))
      ensures cancelled(old(clock)) ==> outcome == Failed(Cancelled) && rows == [] && log == old(log)
      ensures RowsOk(rows, roots)
      ensures forall i :: 0 <= i < |columns| ==> |columns[i].queue| <= cap
      ensures maxVars > 0 ==> Held(rows) <= maxVars && (!outcome.Failed? ==> count <= maxVars)
      ensures outcome == Exhausted && HonestAgent(agent, view) ==> Complete(view, rows, roots)
      ensures outcome.Failed? ==> Caused(outcome.error, agent, cancelled, maxVars, HonestAgent(agent, view), Excuses(view))
    {
      FreshCovers(view, columns);
      FreshRows(view, roots, rows);
      assert Between(view);
      hide Between, Total, Queued, RowsOk, Complete, HonestAgent, Caused, Polite, AllOk, RootsAre, Counted, Held, Unsendable, Instances;
      TookNone(accepts);
      hide TookAll;
      while true
        invariant Between(view) && TookAll(accepts, |rows|)
        invariant (rows == [] && clock == old(clock) && log == old(log)) || !cancelled(old(clock))
        decreases Total(columns, depth), Queued(columns)
      {
        ghost var taken := |rows|;
        outcome := Turn(view);
        TookOne(accepts, taken);
        if outcome != Yielded { return; }
      }
    }
  }

  // ---------------------------------------------------------------- the public entry

  /** The consumer took the first `n` rows and asked for more. */
  ghost predicate TookAll(accepts: nat -> bool, n: int)
  {
    forall k :: 0 < k <= n ==> accepts(k)
  }

  lemma TookNone(accepts: nat -> bool)
    ensures TookAll(accepts, 0) && TookAll(accepts, -1)
  {
  }

  lemma TookOne(accepts: nat -> bool, n: nat)
    ensures TookAll(accepts, n + 1) <==> TookAll(accepts, n) && accepts(n + 1)
    ensures TookAll(accepts, n) ==> TookAll(accepts, n - 1)
  {
  }

  /** An identifier as it is on the wire, with its first two arcs folded into one sub-identifier. */
  function Wire(o: Oid): Oid
  {
    if |o| < 2 then o else [o[0] * 40 + o[1]] + o[2..]
  }

  function Wires(roots: seq<Oid>): seq<Oid>
  {
    seq(|roots|, i requires 0 <= i < |roots| => Wire(roots[i]))
  }

  /** The name asked for is the one the codec sends for the identifier. */
  lemma WireIsSent(o: Oid)
    requires |o| >= 2
    ensures Ber.EncodeArcs(Wire(o)) == Ber.EncodeOid(o)
  {
    assert Wire(o)[1..] == o[2..];
  }

  /** A cursor can be sent exactly when the codec reads its octets as an identifier. */
  lemma DecodableExactly(w: Oid)
    ensures Decodable(w) <==> Ber.DecodeOid(Ber.EncodeArcs(w)).Ok?
  {
    if w != [] { Ber.SentIsDecoded(w); }
  }

  /** An index can be handed to the consumer exactly when its octets are at most 128 sub-identifiers. */
  lemma DecodableIndexExactly(w: Oid)
    ensures DecodableIndex(w) <==> Ber.ReadArcs(Ber.EncodeArcs(w), 0) == Ber.Ok(w) && |w| <= Ber.MaxOidComponents
  {
    assert [] + Ber.EncodeArcs(w) == Ber.EncodeArcs(w);
    if Ber.Arcs(w) { Ber.ArcsRoundTrip([], w); } else { Ber.ArcsOverflow([], w); }
  }

  /** And the order of names is the order of identifiers. */
  lemma WireKeepsOrder(a: Oid, b: Oid)
    requires |a| >= 2 && |b| >= 2 && Ber.ValidOid(a) && Ber.ValidOid(b)
    ensures Less(Wire(a), Wire(b)) <==> Less(a, b)
  {
    assert a == [a[0], a[1]] + a[2..] && b == [b[0], b[1]] + b[2..];
    assert Wire(a)[1..] == a[2..] && Wire(b)[1..] == b[2..];
    assert a[1..][1..] == a[2..] && b[1..][1..] == b[2..];
    assert Less(a[1..], b[1..]) <==> a[1] < b[1] || (a[1] == b[1] && Less(a[2..], b[2..]));
  }

  /** Columns that do not overlap as identifiers do not overlap on the wire. */
  lemma WirePrefix(a: Oid, b: Oid)
    requires |a| >= 2 && |b| >= 2 && Ber.ValidOid(a) && Ber.ValidOid(b)
    ensures HasPrefix(Wire(a), Wire(b)) <==> HasPrefix(a, b)
  {
    if HasPrefix(Wire(a), Wire(b)) {
      assert Wire(a)[0] == Wire(b)[0] && |b| <= |a|;
      forall k | 0 <= k < |b| ensures a[k] == b[k] {
        if k >= 2 { assert Wire(a)[k - 1] == Wire(b)[k - 1]; }
      }
    }
  }

  ghost predicate TooShort(roots: seq<Oid>)
  {
    exists i :: 0 <= i < |roots| && |roots[i]| < 2
  }

  predicate Overlapping(a: Oid, b: Oid)
  {
    HasPrefix(a, b) || HasPrefix(b, a)
  }

  /** Two columns overlap exactly when some identifier is in both. */
  lemma OverlapExactly(a: Oid, b: Oid)
    ensures Overlapping(a, b) <==> exists o :: HasPrefix(o, a) && HasPrefix(o, b)
  {
    if Overlapping(a, b) {
      var o := if HasPrefix(a, b) then a else b;
      assert HasPrefix(o, a) && HasPrefix(o, b);
    }
  }

  ghost predicate AnyOverlap(roots: seq<Oid>)
  {
    exists i, j :: 0 <= i < j < |roots| && Overlapping(roots[i], roots[j])
  }

  /** Whether the roots name columns that can be walked together: each of two arcs or more, none inside
      another.  A later complaint replaces an earlier one. */
  method CheckRoots(roots: seq<Oid>, before: Option<WalkError>) returns (err: Option<WalkError>)
    ensures err == if TooShort(roots) then Some(BadRoot) else if AnyOverlap(roots) then Some(Overlap) else before
  {
    err := before;
    for i := 0 to |roots|
      invariant forall k :: 0 <= k < i ==> |roots[k]| >= 2
      invariant err == if exists j, k :: 0 <= j < k < i && Overlapping(roots[j], roots[k]) then Some(Overlap) else before
    {
      if |roots[i]| < 2 { return Some(BadRoot); }
      ghost var earlier := err;
      var found := false;
      for j := 0 to i
        invariant forall k :: 0 <= k < j ==> !Overlapping(roots[k], roots[i])
        invariant err == earlier && !found
      {
        if Overlapping(roots[j], roots[i]) {
          err, found := Some(Overlap), true;
          assert exists j, k :: 0 <= j < k < i + 1 && Overlapping(roots[j], roots[k]);
          break;
        }
      }
    }
  }

  /** WalkColumns and Iter together: validation first, then the walk. */
  method WalkColumns<V(!new, ==)>(roots: seq<Oid>, opts: Options, session: Option<Defaults>,
                                  agent: Agent<V>, cancelled: nat -> bool, accepts: nat -> bool, ghost view: map<Oid, V>)
    returns (rows: seq<Row<V>>, outcome: Outcome, ghost requests: seq<Sent>)
    ensures TooShort(roots) ==> outcome == Failed(BadRoot) && rows == []
    ensures !TooShort(roots) && AnyOverlap(roots) ==> outcome == Failed(Overlap) && rows == []
    ensures !TooShort(roots) && !AnyOverlap(roots) && NewRequester(opts, session).None? ==> outcome == Failed(BadOptions) && rows == []
    ensures RowsOk(rows, Wires(roots))
    ensures outcome == Exhausted && HonestAgent(agent, view) ==> Complete(view, rows, Wires(roots))
    ensures TookAll(accepts, |rows| - 1) && (outcome == Stopped <==> !TookAll(accepts, |rows|))
    ensures !TooShort(roots) && !AnyOverlap(roots) && NewRequester(opts, session).Some? && cancelled(0) ==>
      outcome == Failed(Cancelled) && rows == [] && requests == []
    ensures !TooShort(roots) && !AnyOverlap(roots) && NewRequester(opts, session).Some? ==>
      var limits := NewRequester(opts, session).value; var maxVars := limits.maxVars;
      && Polite(requests, limits.width, limits.repetitions)
      && (maxVars > 0 ==> Held(rows) <= maxVars)
      && (outcome.Failed? ==> Caused(outcome.error, agent, cancelled, maxVars, HonestAgent(agent, view),
                                         Excuse(Unsendable(view, Wires(roots)), Instances(view, Wires(roots)) > maxVars)))
  {
    hide Complete, HonestAgent, Caused, Unsendable, Instances, RowsOk, TooShort, AnyOverlap;
    TookNone(accepts);
    hide TookAll;
    rows, requests := [], [];
    NoRows<V>(Wires(roots));
    var limits := NewRequester(opts, session);
    var bad := CheckRoots(roots, if limits.None? then Some(BadOptions) else None);
    if bad.Some? { return rows, Failed(bad.value), requests; }
    var merge := new ColumnMerge(Wires(roots), limits.value, agent, cancelled, accepts);
    outcome := merge.Run(view);
    rows, requests := merge.rows, merge.log;
  }

  lemma NoRows<V>(roots: seq<Oid>)
    ensures RowsOk<V>([], roots)
  {
  }
}
