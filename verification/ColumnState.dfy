/** The state of a selected-column walk: cursors, rows, and what a walk keeps between steps.

    The agent is an arbitrary function of the request and of how many requests and
    cancellation checks came before it, so every statement that does not mention
    `HonestAgent` holds against any responses whatever. */
module ColumnState {
  import opened Oids
  import opened OidRank
  import opened Common

  // ---------------------------------------------------------------- data

  datatype Binding<V> = Value(value: V) | NoSuchObject | NoSuchInstance | EndOfMibView

  datatype VarBind<V> = VarBind(oid: Oid, binding: Binding<V>)

  /** What a request yields: varbinds, a tooBig PDU error, or any other failure. */
  datatype Response<V> = Items(items: seq<VarBind<V>>) | TooBig | Failure

  datatype WalkError =
    | BadOptions | BadRoot | Overlap
    | Cancelled | RequestFailed | Undecodable
    | EmptyIndex | NotIncreasing | BudgetExceeded | NoProgress

  datatype Cursor<V> = Cursor(root: Oid, cursor: Oid, queue: seq<VarBind<V>>, done: bool, getNext: bool)

  datatype Cell<V> = Cell(column: nat, bind: VarBind<V>)

  datatype Row<V> = Row(index: Oid, cells: seq<Cell<V>>)

  // ---------------------------------------------------------------- request limits

  datatype Options = Options(
    maxRepetitions: int, maxColumns: int,
    callMaxOids: int, callMaxVars: int, callIgnore: Option<bool>)

  /** What a native session contributes; None for a session that offers no column source. */
  datatype Defaults = Defaults(maxOids: int, maxVars: int, ignoreNonIncreasing: bool)

  datatype Limits = Limits(repetitions: nat, width: nat, maxVars: int, ignoreNonIncreasing: bool)

  function Min(a: int, b: int): int { if a <= b then a else b }

  /** The effective limits, or None for options outside their documented range. */
  function NewRequester(opts: Options, session: Option<Defaults>): (r: Option<Limits>)
    ensures r.None? <==> !(0 <= opts.maxRepetitions <= 255 && 0 <= opts.maxColumns <= 128)
    ensures r.Some? ==> 1 <= r.value.repetitions <= 255 && 1 <= r.value.width <= 128
    ensures r.Some? && opts.callMaxOids > 0 ==> r.value.width <= opts.callMaxOids
    ensures r.Some? && session.Some? && session.value.maxOids > 0 ==> r.value.width <= session.value.maxOids
    ensures r.Some? ==> r.value.repetitions == if opts.maxRepetitions > 0 then opts.maxRepetitions else 50
    ensures r.Some? ==> var asked := if opts.maxColumns > 0 then opts.maxColumns else 10;
      && r.value.width <= asked
      && (r.value.width == asked || r.value.width == opts.callMaxOids || (session.Some? && r.value.width == session.value.maxOids))
    ensures r.Some? && opts.callMaxVars > 0 ==> r.value.maxVars == opts.callMaxVars
    ensures r.Some? && opts.callMaxVars <= 0 ==> r.value.maxVars == if session.Some? then session.value.maxVars else 0
    ensures r.Some? && opts.callIgnore.Some? ==> r.value.ignoreNonIncreasing == opts.callIgnore.value
    ensures r.Some? && opts.callIgnore.None? ==> r.value.ignoreNonIncreasing == (session.Some? && session.value.ignoreNonIncreasing)
  {
    if opts.maxRepetitions < 0 || opts.maxRepetitions > 255 || opts.maxColumns < 0 || opts.maxColumns > 128 then None
    else
      var reps := if opts.maxRepetitions == 0 then 50 else opts.maxRepetitions;
      var width := if opts.maxColumns == 0 then 10 else opts.maxColumns;
      var width := if session.Some? && session.value.maxOids > 0 then Min(width, session.value.maxOids) else width;
      var vars := if session.Some? then session.value.maxVars else 0;
      var ignore := session.Some? && session.value.ignoreNonIncreasing;
      var width := if opts.callMaxOids > 0 then Min(width, opts.callMaxOids) else width;
      var vars := if opts.callMaxVars > 0 then opts.callMaxVars else vars;
      var ignore := if opts.callIgnore.Some? then opts.callIgnore.value else ignore;
      Some(Limits(reps, width, vars, ignore))
  }

  /** A cursor the codec can put in a request: with its folded first group it names at most 128 arcs. */
  predicate Decodable(o: Oid)
  {
    |o| + 1 <= 128 && ArcsFit(o)
  }

  /** An index suffix the codec can hand to the consumer. */
  predicate DecodableIndex(o: Oid)
  {
    |o| <= 128 && ArcsFit(o)
  }

  // ---------------------------------------------------------------- an honest agent

  /** The answer GETNEXT gives for `from` over the instances `view`
      (sections 4.2.2 and 4.2.3 of RFC 3416). */
  ghost predicate HonestAnswer<V>(view: map<Oid, V>, from: Oid, answer: VarBind<V>)
  {
    match answer.binding
    case Value(v) =>
      && answer.oid in view && v == view[answer.oid]
      && Less(from, answer.oid)
      && forall o :: o in view && Less(from, o) ==> AtMost(answer.oid, o)
    case EndOfMibView =>
      && answer.oid == from
      && forall o :: o in view ==> !Less(from, o)
    case _ => false
  }

  /** The name the varbind at `pos` succeeds: the requested one in the first repetition,
      then the same slot's varbind one repetition earlier. */
  function Source<V>(oids: seq<Oid>, items: seq<VarBind<V>>, pos: nat): Oid
    requires |oids| > 0 && pos < |items| + |oids|
  {
    if pos < |oids| then oids[pos] else items[pos - |oids|].oid
  }

  /** Any prefix of the full answer: truncated, empty and complete responses alike. */
  ghost predicate HonestItems<V>(view: map<Oid, V>, oids: seq<Oid>, items: seq<VarBind<V>>)
    requires |oids| > 0
  {
    forall pos :: 0 <= pos < |items| ==> HonestAnswer(view, Source(oids, items, pos), items[pos])
  }

  type Agent<!V> = (nat, seq<Oid>, nat, bool) -> Response<V>

  ghost predicate HonestAgent<V(!new)>(agent: Agent<V>, view: map<Oid, V>)
  {
    forall n, oids, reps, next :: |oids| > 0 && agent(n, oids, reps, next).Items? ==>
      HonestItems(view, oids, agent(n, oids, reps, next).items)
  }

  /** The requirement can be met: over every finite view each name has an honest answer. */
  lemma HonestAnswerExists<V>(view: map<Oid, V>, from: Oid) returns (answer: VarBind<V>)
    ensures HonestAnswer(view, from, answer)
  {
    var later := set o | o in view && Less(from, o);
    if later == {} {
      answer := VarBind(from, EndOfMibView);
      assert forall o :: o in view && Less(from, o) ==> o in later;
    } else {
      var m := LeastExists(later);
      answer := VarBind(m, Value(view[m]));
    }
  }

  // ---------------------------------------------------------------- one varbind

  /** Whether a varbind says that a column has no more values. */
  predicate Leaves<V>(c: Cursor<V>, rv: VarBind<V>)
  {
    rv.binding.EndOfMibView? || rv.binding.NoSuchObject? || !HasPrefix(rv.oid, c.root)
  }

  /** Exactly what one varbind does to its column: nothing to a finished one; a value that leaves the
      subtree finishes it; the root itself, and a name that is not after the cursor unless that is
      ignored, fail the walk; any other moves the cursor and is queued if it has a value. */
  ghost predicate TakenAs<V>(ignoreNonIncreasing: bool, c: Cursor<V>, rv: VarBind<V>, c': Cursor<V>, moved: bool, counts: bool, err: Option<WalkError>)
  {
    if c.done then c' == c && !moved && !counts && err == None
    else if Leaves(c, rv) then c' == c.(done := true) && moved && !counts && err == None
    else if rv.oid == c.root then err == Some(EmptyIndex)
    else if Less(c.cursor, rv.oid) then
      && c' == c.(cursor := rv.oid, queue := if rv.binding.NoSuchInstance? then c.queue else c.queue + [rv])
      && moved && counts && err == None
    else if ignoreNonIncreasing && rv.oid != c.cursor then c' == c && !moved && !counts && err == None
    else err == Some(NotIncreasing)
  }

  /** One varbind in its place: the column it answers takes it, and it counts if the column says so. */
  ghost predicate PlacedAs<V>(ignoreNonIncreasing: bool, now: seq<Cursor<V>>, i: nat, rv: VarBind<V>, now': seq<Cursor<V>>, seen: nat, seen': nat)
  {
    i < |now| && |now'| == |now| && exists moved, counts ::
      && TakenAs(ignoreNonIncreasing, now[i], rv, now'[i], moved, counts, None)
      && now' == now[i := now'[i]] && seen' == seen + (if counts then 1 else 0)
  }

  // ---------------------------------------------------------------- why a walk may fail

  ghost predicate Interrupted(cancelled: nat -> bool)
  {
    exists k :: cancelled(k)
  }

  /** An answer no request can go on from: a failure, tooBig for a single GETNEXT, or too many varbinds. */
  predicate Refuses<V>(r: Response<V>, columns: nat, reps: nat, next: bool)
  {
    r.Failure? || (r.TooBig? && next) || (r.Items? && |r.items| > if next then columns else columns * reps)
  }

  /** GETNEXT is only ever sent for a single name. */
  ghost predicate Refusing<V(!new)>(agent: Agent<V>)
  {
    exists n, oids, reps, next :: |oids| > 0 && (next ==> |oids| == 1) && Refuses(agent(n, oids, reps, next), |oids|, reps, next)
  }

  /** A request sent, and whether the answer was tooBig. */
  datatype Sent = Sent(oids: seq<Oid>, repetitions: nat, next: bool, tooBig: bool)

  /** What may be sent after a request.  A GETBULK that was too big goes out again for half the repetitions; at
      one repetition it is split, or sent as GETNEXT when it was for a single column.  A GETNEXT that was too
      big is the last request.  The repetitions never grow back. */
  ghost predicate Succeeds(a: Sent, b: Sent)
  {
    if a.tooBig && a.next then false
    else if a.tooBig && a.repetitions > 1 then b.oids == a.oids && b.repetitions == a.repetitions / 2 && !b.next
    else if a.tooBig && |a.oids| == 1 then b.oids == a.oids && b.repetitions == 1 && b.next
    else b.repetitions == a.repetitions && (a.tooBig ==> 2 * |b.oids| <= |a.oids|)
  }

  /** The first request is for the repetitions asked for, none is for more columns than the limit allows, and
      GETNEXT is for a single column. */
  ghost predicate Polite(log: seq<Sent>, width: nat, most: nat)
  {
    && (log != [] ==> log[0].repetitions == most)
    && (forall k :: 0 <= k < |log| ==> 1 <= |log[k].oids| <= width && (log[k].next ==> |log[k].oids| == 1))
    && forall k :: 0 < k < |log| ==> Succeeds(log[k - 1], log[k])
  }

  lemma PoliteOne(log: seq<Sent>, width: nat, most: nat, sent: Sent)
    requires Polite(log, width, most) && 1 <= |sent.oids| <= width && (sent.next ==> |sent.oids| == 1)
    requires if log == [] then sent.repetitions == most else Succeeds(log[|log| - 1], sent)
    ensures Polite(log + [sent], width, most)
  {
  }

  /** The agent answers a single GETNEXT with nothing at all. */
  ghost predicate Silent<V(!new)>(agent: Agent<V>)
  {
    exists n, oids, reps :: |oids| == 1 && agent(n, oids, reps, true) == Items([])
  }

  /** A root or an instance that the codec cannot carry. */
  ghost predicate Unsendable<V>(view: map<Oid, V>, roots: seq<Oid>)
  {
    (exists i :: 0 <= i < |roots| && !Decodable(roots[i])) || exists o :: o in view && !Decodable(o)
  }

  /** What an honest agent can be to blame for: a root or instance the codec cannot carry, and more
      instances under the roots than the variable budget. */
  datatype Excuse = Excuse(odd: bool, crowded: bool)

  /** What it takes for a walk to fail with an error.  An agent that answers honestly is not accused
      of anything else than refusing or saying nothing, being `odd`, or being `crowded`. */
  ghost predicate Caused<V(!new)>(e: WalkError, agent: Agent<V>, cancelled: nat -> bool, maxVars: int, honest: bool, excuse: Excuse)
  {
    match e
    case Cancelled => Interrupted(cancelled)
    case RequestFailed => Interrupted(cancelled) || Refusing(agent)
    case BudgetExceeded => maxVars > 0 && (honest ==> excuse.crowded)
    case NoProgress => honest ==> Silent(agent)
    case NotIncreasing => !honest
    case EmptyIndex => !honest
    case Undecodable => honest ==> excuse.odd
    case _ => false
  }

  lemma SimpleCauses<V(!new)>(agent: Agent<V>, cancelled: nat -> bool, maxVars: int, honest: bool, excuse: Excuse)
    ensures (honest ==> excuse.odd) ==> Caused(Undecodable, agent, cancelled, maxVars, honest, excuse)
    ensures maxVars > 0 && (honest ==> excuse.crowded) ==> Caused(BudgetExceeded, agent, cancelled, maxVars, honest, excuse)
    ensures !honest ==> Caused(NotIncreasing, agent, cancelled, maxVars, honest, excuse) && Caused(EmptyIndex, agent, cancelled, maxVars, honest, excuse)
  {
  }

  lemma StallCause<V(!new)>(agent: Agent<V>, cancelled: nat -> bool, maxVars: int, honest: bool, excuse: Excuse)
    requires honest ==> Silent(agent)
    ensures Caused(NoProgress, agent, cancelled, maxVars, honest, excuse)
  {
  }

  lemma CausedForLess<V(!new)>(e: WalkError, agent: Agent<V>, cancelled: nat -> bool, maxVars: int, honest: bool, less: bool, excuse: Excuse)
    requires Caused(e, agent, cancelled, maxVars, honest, excuse) && (less ==> honest)
    ensures Caused(e, agent, cancelled, maxVars, less, excuse)
  {
  }

  /** A cursor the codec cannot carry: it is a root, or an honest agent's instance. */
  lemma CursorIsOdd<V>(view: map<Oid, V>, cols: seq<Cursor<V>>, roots: seq<Oid>, i: nat, last: Oid)
    requires i < |cols| && RootsAre(cols, roots) && Covers(view, cols[i], last) && !cols[i].done && !Decodable(cols[i].cursor)
    ensures Unsendable(view, roots)
  {
  }

  /** An index the codec cannot carry is that of such an instance. */
  lemma IndexIsOdd<V>(view: map<Oid, V>, cols: seq<Cursor<V>>, roots: seq<Oid>, index: Oid, last: Oid)
    requires AllCover(view, cols, last) && !DecodableIndex(index) && exists i :: 0 <= i < |cols| && Heads(cols[i], index)
    ensures Unsendable(view, roots)
  {
    var i :| 0 <= i < |cols| && Heads(cols[i], index);
    assert Covers(view, cols[i], last);
    var o := cols[i].queue[0].oid;
    assert o == cols[i].root + index;
  }

  // ---------------------------------------------------------------- column invariants

  /** One column against the last index yielded: queued values lie below the root, after
      that index, in increasing order and no further than the cursor. */
  ghost predicate ColumnOk<V>(c: Cursor<V>, last: Oid, cap: nat)
  {
    && HasPrefix(c.cursor, c.root)
    && (!c.done ==> AtMost(last, c.cursor[|c.root|..]))
    && |c.queue| <= cap
    && (forall j :: 0 <= j < |c.queue| ==>
          && Under(c.root, c.queue[j].oid) && c.queue[j].binding.Value?
          && AtMost(c.queue[j].oid, c.cursor)
          && Less(last, c.queue[j].oid[|c.root|..]))
    && (forall i, j :: 0 <= i < j < |c.queue| ==> Less(c.queue[i].oid, c.queue[j].oid))
  }

  /** What a column still owes: every instance below its root after the last index and up to
      the cursor is queued, and an exhausted column has nothing beyond its queue. */
  ghost predicate Covers<V>(view: map<Oid, V>, c: Cursor<V>, last: Oid)
  {
    && (forall j :: 0 <= j < |c.queue| ==>
          c.queue[j].oid in view && c.queue[j].binding == Value(view[c.queue[j].oid]))
    && (forall o :: o in view && Under(c.root, o) && Less(last, o[|c.root|..]) && (c.done || AtMost(o, c.cursor))
          ==> VarBind(o, Value(view[o])) in c.queue)
    && (c.done || c.cursor == c.root || c.cursor in view)
  }

  ghost predicate AllOk<V>(cols: seq<Cursor<V>>, last: Oid, cap: nat)
  {
    forall i :: 0 <= i < |cols| ==> ColumnOk(cols[i], last, cap)
  }

  ghost predicate AllCover<V>(view: map<Oid, V>, cols: seq<Cursor<V>>, last: Oid)
  {
    forall i :: 0 <= i < |cols| ==> Covers(view, cols[i], last)
  }

  // ---------------------------------------------------------------- what an honest agent has

  ghost function Inside<V>(view: map<Oid, V>, root: Oid): set<Oid>
  {
    set o | o in view && Under(root, o)
  }

  /** The instances under the roots, each counted once for every root it is under. */
  ghost function Instances<V>(view: map<Oid, V>, roots: seq<Oid>): nat
  {
    if roots == [] then 0 else |Inside(view, roots[0])| + Instances(view, roots[1..])
  }

  ghost function InsideAny<V>(view: map<Oid, V>, roots: seq<Oid>): set<Oid>
  {
    if roots == [] then {} else Inside(view, roots[0]) + InsideAny(view, roots[1..])
  }

  /** Under roots none of which is inside another, they are that many distinct instances. */
  lemma {:induction false} InstancesAreDistinct<V>(view: map<Oid, V>, roots: seq<Oid>)
    requires forall i, j :: 0 <= i < j < |roots| ==> !HasPrefix(roots[i], roots[j]) && !HasPrefix(roots[j], roots[i])
    ensures Instances(view, roots) == |InsideAny(view, roots)|
  {
    if roots != [] {
      var rest := roots[1..];
      forall i, j | 0 <= i < j < |rest| ensures !HasPrefix(rest[i], rest[j]) && !HasPrefix(rest[j], rest[i]) {
        assert rest[i] == roots[i + 1] && rest[j] == roots[j + 1];
      }
      InstancesAreDistinct(view, rest);
      forall o | o in InsideAny(view, rest) ensures o !in Inside(view, roots[0]) {
        var j := InsideOne(view, rest, o);
        assert rest[j] == roots[j + 1];
        PrefixesNest(o, roots[0], rest[j]);
      }
      assert Inside(view, roots[0]) !! InsideAny(view, rest);
    }
  }

  lemma {:induction false} InsideOne<V>(view: map<Oid, V>, roots: seq<Oid>, o: Oid) returns (i: nat)
    requires o in InsideAny(view, roots)
    ensures i < |roots| && o in Inside(view, roots[i])
    decreases |roots|
  {
    if o in Inside(view, roots[0]) {
      i := 0;
    } else {
      i := InsideOne(view, roots[1..], o);
      i := i + 1;
    }
  }

  lemma PrefixesNest(o: Oid, a: Oid, b: Oid)
    ensures HasPrefix(o, a) && HasPrefix(o, b) ==> HasPrefix(a, b) || HasPrefix(b, a)
  {
    if HasPrefix(o, a) && HasPrefix(o, b) { assert a == o[..|a|] && b == o[..|b|]; }
  }

  /** The instances a column has been through. */
  ghost function Passed<V>(view: map<Oid, V>, c: Cursor<V>): set<Oid>
  {
    set o | o in view && Under(c.root, o) && AtMost(o, c.cursor)
  }

  ghost function Found<V>(view: map<Oid, V>, cols: seq<Cursor<V>>): nat
  {
    if cols == [] then 0 else |Passed(view, cols[0])| + Found(view, cols[1..])
  }

  /** Columns that owe nothing of an honest agent's instances behind their cursors, and a count of no more
      than the instances they have been through. */
  ghost predicate Sound<V>(view: map<Oid, V>, cols: seq<Cursor<V>>, last: Oid, count: nat)
  {
    AllCover(view, cols, last) && count <= Found(view, cols)
  }

  lemma SoundIs<V>(view: map<Oid, V>, cols: seq<Cursor<V>>, last: Oid, count: nat)
    ensures Sound(view, cols, last, count) <==> AllCover(view, cols, last) && count <= Found(view, cols)
  {
  }

  lemma {:induction false} FoundUpdate<V>(view: map<Oid, V>, cols: seq<Cursor<V>>, i: nat, c: Cursor<V>)
    requires i < |cols|
    ensures Found(view, cols[i := c]) + |Passed(view, cols[i])| == Found(view, cols) + |Passed(view, c)|
  {
    hide Passed;
    if i == 0 {
      assert cols[0 := c][1..] == cols[1..];
    } else {
      assert cols[i := c][1..] == cols[1..][i - 1 := c];
      FoundUpdate(view, cols[1..], i - 1, c);
    }
  }

  lemma {:induction false} FoundSame<V>(view: map<Oid, V>, a: seq<Cursor<V>>, b: seq<Cursor<V>>)
    requires |a| == |b| && forall i :: 0 <= i < |a| ==> a[i].root == b[i].root && a[i].cursor == b[i].cursor
    ensures Found(view, a) == Found(view, b)
  {
    if a != [] { FoundSame(view, a[1..], b[1..]); }
  }

  lemma {:induction false} FoundFits<V>(view: map<Oid, V>, cols: seq<Cursor<V>>, roots: seq<Oid>)
    requires RootsAre(cols, roots)
    ensures Found(view, cols) <= Instances(view, roots)
  {
    if cols != [] {
      SubsetSize(Passed(view, cols[0]), Inside(view, roots[0]));
      hide Passed, Inside;
      FoundFits(view, cols[1..], roots[1..]);
    }
  }

  /** An honest value taken is one more instance the column has been through. */
  lemma PassedOne<V>(view: map<Oid, V>, c: Cursor<V>, c': Cursor<V>)
    requires c'.root == c.root && c'.cursor in view && Under(c.root, c'.cursor) && Less(c.cursor, c'.cursor)
    ensures |Passed(view, c')| > |Passed(view, c)|
  {
    forall o | o in Passed(view, c) ensures o in Passed(view, c') { AtMostTransitive(o, c.cursor, c'.cursor); }
    LessTotal(c.cursor, c'.cursor);
    assert c'.cursor in Passed(view, c') && c'.cursor !in Passed(view, c);
    ProperSubsetSize(Passed(view, c), Passed(view, c'));
  }

  // ---------------------------------------------------------------- progress measure

  /** How much further a cursor can go. */
  ghost function Remaining<V>(c: Cursor<V>, depth: nat): nat
  {
    if c.done then 0 else 1 + Size(depth) - Rank(c.cursor, depth)
  }

  ghost function Total<V>(cols: seq<Cursor<V>>, depth: nat): nat
  {
    if cols == [] then 0 else Remaining(cols[0], depth) + Total(cols[1..], depth)
  }

  ghost function Queued<V>(cols: seq<Cursor<V>>): nat
  {
    if cols == [] then 0 else |cols[0].queue| + Queued(cols[1..])
  }

  /** How many cells some rows hold. */
  ghost function Held<V>(rows: seq<Row<V>>): nat
  {
    if rows == [] then 0 else Held(rows[..|rows| - 1]) + |rows[|rows| - 1].cells|
  }

  lemma CountedBound<V>(rows: seq<Row<V>>, cols: seq<Cursor<V>>, count: nat)
    requires Counted(rows, cols, count)
    ensures Held(rows) <= count
  {
  }

  lemma HeldOne<V>(rows: seq<Row<V>>, row: Row<V>)
    ensures Held(rows + [row]) == Held(rows) + |row.cells|
  {
    assert (rows + [row])[..|rows|] == rows;
  }

  lemma {:induction false} QueuedUpdate<V>(cols: seq<Cursor<V>>, i: nat, c: Cursor<V>)
    requires i < |cols|
    ensures Queued(cols[i := c]) + |cols[i].queue| == Queued(cols) + |c.queue|
  {
    if i == 0 {
      assert cols[0 := c][1..] == cols[1..];
    } else {
      assert cols[i := c][1..] == cols[1..][i - 1 := c];
      QueuedUpdate(cols[1..], i - 1, c);
    }
  }

  lemma {:induction false} NothingQueued<V>(cols: seq<Cursor<V>>)
    requires forall i :: 0 <= i < |cols| ==> cols[i].queue == []
    ensures Queued(cols) == 0
  {
    if cols != [] { NothingQueued(cols[1..]); }
  }

  /** What was yielded and what is queued was counted. */
  ghost predicate Counted<V>(rows: seq<Row<V>>, cols: seq<Cursor<V>>, count: nat)
  {
    Held(rows) + Queued(cols) <= count
  }

  /** One column moved forward, or stayed where it was. */
  ghost predicate Moves<V>(a: Cursor<V>, b: Cursor<V>, depth: nat)
  {
    a.root == b.root && Remaining(b, depth) <= Remaining(a, depth)
  }

  /** What fetching for `ids` may change. */
  ghost predicate Evolves<V>(before: seq<Cursor<V>>, after: seq<Cursor<V>>, ids: seq<nat>, depth: nat)
  {
    && |before| == |after|
    && (forall i :: 0 <= i < |before| ==> Moves(before[i], after[i], depth))
    && (forall i :: 0 <= i < |before| && i !in ids ==> after[i] == before[i])
  }

  ghost predicate Gains<V>(before: seq<Cursor<V>>, after: seq<Cursor<V>>, depth: nat)
  {
    |before| == |after| && exists i :: 0 <= i < |before| && Remaining(after[i], depth) < Remaining(before[i], depth)
  }

  /** The first `n` columns asked for have moved forward. */
  ghost predicate Ahead<V>(before: seq<Cursor<V>>, after: seq<Cursor<V>>, ids: seq<nat>, n: nat, depth: nat)
  {
    && |before| == |after| && n <= |ids|
    && forall k :: 0 <= k < n ==> ids[k] < |before| && Remaining(after[ids[k]], depth) < Remaining(before[ids[k]], depth)
  }

  lemma AheadGains<V>(before: seq<Cursor<V>>, after: seq<Cursor<V>>, ids: seq<nat>, n: nat, depth: nat)
    requires Ahead(before, after, ids, n, depth) && n > 0
    ensures Gains(before, after, depth)
  {
    assert Remaining(after[ids[0]], depth) < Remaining(before[ids[0]], depth);
  }

  lemma NoneAhead<V>(cols: seq<Cursor<V>>, ids: seq<nat>, depth: nat)
    ensures Ahead(cols, cols, ids, 0, depth)
  {
  }

  lemma AheadOfAll<V>(before: seq<Cursor<V>>, after: seq<Cursor<V>>, part: seq<nat>, ids: seq<nat>, depth: nat)
    requires part <= ids && part != [] && Ahead(before, after, part, 1, depth)
    ensures Ahead(before, after, ids, 1, depth)
  {
    hide Remaining;
    assert part[0] == ids[0];
  }

  lemma AheadThen<V>(a: seq<Cursor<V>>, b: seq<Cursor<V>>, c: seq<Cursor<V>>, ids: seq<nat>, n: nat, depth: nat)
    requires Forward(a, b, depth) && Forward(b, c, depth) && (Ahead(a, b, ids, n, depth) || Ahead(b, c, ids, n, depth))
    ensures Ahead(a, c, ids, n, depth)
  {
    hide Remaining;
    forall k | 0 <= k < n ensures ids[k] < |a| && Remaining(c[ids[k]], depth) < Remaining(a[ids[k]], depth) {
      assert Moves(a[ids[k]], b[ids[k]], depth) && Moves(b[ids[k]], c[ids[k]], depth);
    }
  }

  lemma OneMoreAhead<V>(a: seq<Cursor<V>>, b: seq<Cursor<V>>, c: seq<Cursor<V>>, ids: seq<nat>, n: nat, depth: nat)
    requires n < |ids| && ids[n] < |a| && Forward(a, b, depth) && Forward(b, c, depth) && Ahead(a, b, ids, n, depth)
    requires Remaining(b[ids[n]], depth) < Remaining(a[ids[n]], depth) || Remaining(c[ids[n]], depth) < Remaining(b[ids[n]], depth)
    ensures Ahead(a, c, ids, n + 1, depth)
  {
    hide Remaining;
    AheadThen(a, b, c, ids, n, depth);
    assert Moves(a[ids[n]], b[ids[n]], depth) && Moves(b[ids[n]], c[ids[n]], depth);
  }

  lemma NextAhead<V>(a: seq<Cursor<V>>, b: seq<Cursor<V>>, c: seq<Cursor<V>>, ids: seq<nat>, n: nat, depth: nat)
    requires n < |ids| && ids[n] < |a| && Forward(a, b, depth) && Forward(b, c, depth)
    requires Ahead(a, b, ids, n, depth) && Ahead(b, c, [ids[n]], 1, depth)
    ensures Ahead(a, c, ids, n + 1, depth)
  {
    hide Remaining;
    assert [ids[n]][0] == ids[n];
    OneMoreAhead(a, b, c, ids, n, depth);
  }

  lemma EvolvesThenEvolves<V>(a: seq<Cursor<V>>, b: seq<Cursor<V>>, c: seq<Cursor<V>>,
                              first: seq<nat>, second: seq<nat>, ids: seq<nat>, depth: nat)
    requires Evolves(a, b, first, depth) && Evolves(b, c, second, depth)
    requires forall i :: i in first || i in second ==> i in ids
    ensures Evolves(a, c, ids, depth)
    ensures Gains(a, b, depth) || Gains(b, c, depth) ==> Gains(a, c, depth)
  {
    forall i | 0 <= i < |a| ensures Moves(a[i], c[i], depth) {
      assert Moves(a[i], b[i], depth) && Moves(b[i], c[i], depth);
    }
    if Gains(a, b, depth) {
      var i :| 0 <= i < |a| && Remaining(b[i], depth) < Remaining(a[i], depth);
      assert Moves(b[i], c[i], depth);
    } else if Gains(b, c, depth) {
      var i :| 0 <= i < |b| && Remaining(c[i], depth) < Remaining(b[i], depth);
      assert Moves(a[i], b[i], depth);
    }
  }

  lemma {:induction false} TotalShrinks<V>(a: seq<Cursor<V>>, b: seq<Cursor<V>>, depth: nat)
    requires |a| == |b| && forall i :: 0 <= i < |a| ==> Remaining(b[i], depth) <= Remaining(a[i], depth)
    ensures Total(b, depth) <= Total(a, depth)
    ensures Gains(a, b, depth) ==> Total(b, depth) < Total(a, depth)
  {
    if a != [] {
      TotalShrinks(a[1..], b[1..], depth);
      if Gains(a, b, depth) {
        var i :| 0 <= i < |a| && Remaining(b[i], depth) < Remaining(a[i], depth);
        if i > 0 { assert b[1..][i - 1] == b[i] && a[1..][i - 1] == a[i]; }
      }
    }
  }

  lemma {:induction false} QueuedShrinks<V>(a: seq<Cursor<V>>, b: seq<Cursor<V>>)
    requires |a| == |b| && forall i :: 0 <= i < |a| ==> |b[i].queue| <= |a[i].queue|
    ensures Queued(b) <= Queued(a)
    ensures (exists i :: 0 <= i < |a| && |b[i].queue| < |a[i].queue|) ==> Queued(b) < Queued(a)
  {
    if a != [] {
      QueuedShrinks(a[1..], b[1..]);
      if i :| 0 <= i < |a| && |b[i].queue| < |a[i].queue| {
        if i > 0 { assert b[1..][i - 1] == b[i] && a[1..][i - 1] == a[i]; }
      }
    }
  }

  /** A cursor that could be sent and then moved forward has less left, whatever it moved to. */
  lemma AdvanceShrinks<V>(a: Cursor<V>, b: Cursor<V>, depth: nat)
    requires !a.done && !b.done && Less(a.cursor, b.cursor) && depth >= 128
    ensures Remaining(b, depth) <= Remaining(a, depth)
    ensures Decodable(a.cursor) ==> Remaining(b, depth) < Remaining(a, depth)
  {
    RankMonotone(a.cursor, b.cursor, depth);
  }

  // ---------------------------------------------------------------- one varbind into one column

  /** Queuing the next value keeps the column in order. */
  lemma AppendKeepsColumn<V>(c: Cursor<V>, rv: VarBind<V>, last: Oid, cap: nat, c': Cursor<V>)
    requires ColumnOk(c, last, cap) && !c.done
    requires Under(c.root, rv.oid) && Less(c.cursor, rv.oid)
    requires c'.root == c.root && c'.cursor == rv.oid && !c'.done
    requires c'.queue == c.queue || (rv.binding.Value? && |c.queue| < cap && c'.queue == c.queue + [rv])
    ensures ColumnOk(c', last, cap)
  {
    LessSuffix(c.root, c.cursor, rv.oid);
    AtMostTransitive(last, c.cursor[|c.root|..], rv.oid[|c.root|..]);
    forall j | 0 <= j < |c.queue| ensures AtMost(c.queue[j].oid, rv.oid) && Less(c.queue[j].oid, rv.oid) {
      AtMostTransitive(c.queue[j].oid, c.cursor, rv.oid);
    }
  }

  /** An honest value keeps the column complete: nothing lies between the cursor and it. */
  lemma AppendKeepsCover<V>(view: map<Oid, V>, c: Cursor<V>, rv: VarBind<V>, last: Oid, c': Cursor<V>)
    requires Covers(view, c, last) && !c.done
    requires HonestAnswer(view, c.cursor, rv) && rv.binding.Value?
    requires c'.root == c.root && c'.cursor == rv.oid && !c'.done && c'.queue == c.queue + [rv]
    ensures Covers(view, c', last)
  {
    forall o | o in view && Under(c.root, o) && Less(last, o[|c.root|..]) && AtMost(o, rv.oid)
      ensures VarBind(o, Value(view[o])) in c'.queue
    {
      LessTotal(o, c.cursor);
      if Less(c.cursor, o) {
        LessTotal(o, rv.oid);
        assert o == rv.oid;
        assert c'.queue[|c.queue|] == VarBind(o, Value(view[o]));
      }
    }
  }

  /** An honest answer is neither the column's root nor behind its cursor. */
  lemma HonestAdvances<V>(view: map<Oid, V>, c: Cursor<V>, rv: VarBind<V>, last: Oid, cap: nat)
    requires ColumnOk(c, last, cap) && HonestAnswer(view, c.cursor, rv)
    ensures rv.binding.Value? && HasPrefix(rv.oid, c.root) ==> |rv.oid| != |c.root| && Less(c.cursor, rv.oid)
    ensures rv.binding.Value? || rv.binding.EndOfMibView?
  {
    if rv.binding.Value? && HasPrefix(rv.oid, c.root) && |rv.oid| == |c.root| {
      assert rv.oid == c.root;
      if c.root != c.cursor { UnderIsLess(c.root, c.cursor); }
      LessTotal(c.root, c.cursor);
    }
  }

  /** An honest answer outside the column, or the end of the view, means the column is exhausted. */
  lemma LeavingMeansExhausted<V>(view: map<Oid, V>, c: Cursor<V>, rv: VarBind<V>, last: Oid, c': Cursor<V>)
    requires Covers(view, c, last) && HasPrefix(c.cursor, c.root)
    requires HonestAnswer(view, c.cursor, rv)
    requires rv.binding.EndOfMibView? || !HasPrefix(rv.oid, c.root)
    requires c' == c.(done := true)
    ensures Covers(view, c', last)
  {
    forall o | o in view && Under(c.root, o) && Less(last, o[|c.root|..])
      ensures VarBind(o, Value(view[o])) in c'.queue
    {
      LessTotal(o, c.cursor);
      if Less(c.cursor, o) {
        assert rv.binding.Value?;
        if o != rv.oid { SubtreeContiguous(c.root, c.cursor, rv.oid, o); }
      }
    }
  }

  // ---------------------------------------------------------------- rows

  ghost predicate RowOk<V>(row: Row<V>, roots: seq<Oid>)
  {
    && row.index != [] && row.cells != []
    && (forall k :: 0 <= k < |row.cells| ==>
          && row.cells[k].column < |roots|
          && row.cells[k].bind.binding.Value?
          && row.cells[k].bind.oid == roots[row.cells[k].column] + row.index)
    && (forall j, k :: 0 <= j < k < |row.cells| ==> row.cells[j].column < row.cells[k].column)
  }

  /** Rows in strictly increasing index order, each with one cell per contributing column. */
  ghost predicate RowsOk<V>(rows: seq<Row<V>>, roots: seq<Oid>)
  {
    && (forall r :: 0 <= r < |rows| ==> RowOk(rows[r], roots))
    && (forall q, r :: 0 <= q < r < |rows| ==> Less(rows[q].index, rows[r].index))
  }

  /** The last index yielded, or the empty identifier before the first row. */
  ghost function LastIndex<V>(rows: seq<Row<V>>): Oid
  {
    if rows == [] then [] else rows[|rows| - 1].index
  }

  ghost predicate HasCell<V>(rows: seq<Row<V>>, column: nat, bind: VarBind<V>)
  {
    exists r :: 0 <= r < |rows| && Cell(column, bind) in rows[r].cells
  }

  /** Up to `last`, the rows hold the view's instances below each root and nothing else. */
  ghost predicate RowsExact<V>(view: map<Oid, V>, rows: seq<Row<V>>, roots: seq<Oid>, last: Oid)
  {
    && (forall r, k :: 0 <= r < |rows| && 0 <= k < |rows[r].cells| ==>
          rows[r].cells[k].bind.oid in view && rows[r].cells[k].bind.binding == Value(view[rows[r].cells[k].bind.oid]))
    && (forall c, o :: 0 <= c < |roots| && o in view && Under(roots[c], o) && AtMost(o[|roots[c]|..], last) ==>
          HasCell(rows, c, VarBind(o, Value(view[o]))))
  }

  /** Exactly the view's instances below each root. */
  ghost predicate Complete<V(!new)>(view: map<Oid, V>, rows: seq<Row<V>>, roots: seq<Oid>)
  {
    forall c: nat, bind :: HasCell(rows, c, bind) <==>
      && c < |roots| && bind.oid in view && bind.binding == Value(view[bind.oid])
      && Under(roots[c], bind.oid)
  }

  /** No (column, index) pair is yielded twice, whatever the agent does. */
  lemma CellsAreUnique<V>(rows: seq<Row<V>>, roots: seq<Oid>, q: nat, j: nat, r: nat, k: nat)
    requires RowsOk(rows, roots)
    requires q < |rows| && j < |rows[q].cells| && r < |rows| && k < |rows[r].cells|
    requires rows[q].cells[j].column == rows[r].cells[k].column
    requires rows[q].cells[j].bind.oid == rows[r].cells[k].bind.oid
    ensures q == r && j == k
  {
    var root := roots[rows[q].cells[j].column];
    assert RowOk(rows[q], roots) && RowOk(rows[r], roots);
    assert rows[q].index == (root + rows[q].index)[|root|..] == (root + rows[r].index)[|root|..] == rows[r].index;
    LessIrreflexive(rows[q].index);
  }

  /** A finished walk over exhausted columns is complete. */
  lemma ExhaustedIsComplete<V(!new)>(view: map<Oid, V>, cols: seq<Cursor<V>>, rows: seq<Row<V>>, roots: seq<Oid>, last: Oid)
    requires RowsOk(rows, roots) && RowsExact(view, rows, roots, last)
    requires AllCover(view, cols, last) && |cols| == |roots|
    requires forall i :: 0 <= i < |cols| ==> cols[i].root == roots[i] && cols[i].done && cols[i].queue == []
    ensures Complete(view, rows, roots)
  {
    forall c: nat, bind: VarBind<V> | HasCell(rows, c, bind)
      ensures c < |roots| && bind.oid in view && bind.binding == Value(view[bind.oid]) && Under(roots[c], bind.oid)
    {
      var r :| 0 <= r < |rows| && Cell(c, bind) in rows[r].cells;
      assert RowOk(rows[r], roots);
      var k :| 0 <= k < |rows[r].cells| && rows[r].cells[k] == Cell(c, bind);
    }
    forall c: nat, bind: VarBind<V> |
        c < |roots| && bind.oid in view && bind.binding == Value(view[bind.oid]) && Under(roots[c], bind.oid)
      ensures HasCell(rows, c, bind)
    {
      var suffix := bind.oid[|roots[c]|..];
      LessTotal(suffix, last);
      assert Covers(view, cols[c], last);
      assert bind == VarBind(bind.oid, Value(view[bind.oid]));
    }
  }

  // ---------------------------------------------------------------- the merge

  lemma Wrap(s: nat, off: nat, n: nat)
    requires s < n && off < n
    ensures SlotAt(s + off, n) == if s + off < n then s + off else s + off - n
  {
    if s + off >= n { ModShift(s + off - n, n); }
  }

  lemma ModShift(a: nat, n: nat)
    requires a < n
    ensures (a + n) % n == a
  {
    var q := (a + n) / n;
    assert a + n == q * n + (a + n) % n;
    if q >= 2 { MulLe(2, q, n); }
    assert q == 1;
  }

  lemma MulLe(a: nat, b: nat, c: nat)
    requires a <= b
    ensures a * c <= b * c
  {
    assert b * c - a * c == (b - a) * c;
  }

  /** `round` repetitions of `n` varbinds. */
  ghost function Times(round: nat, n: nat): nat
  {
    if round == 0 then 0 else n + Times(round - 1, n)
  }

  lemma {:induction false} TimesIsProduct(round: nat, n: nat)
    ensures Times(round, n) == round * n
  {
    if round > 0 {
      TimesIsProduct(round - 1, n);
      assert round * n == (round - 1) * n + n;
    }
  }

  /** The column of a request for `n` columns that the varbind at `pos` answers. */
  function SlotAt(pos: nat, n: nat): (slot: nat)
    requires n > 0
    ensures slot < n
  {
    pos % n
  }

  /** `pos` sits in repetition `round` at position `slot`. */
  lemma SlotOf(pos: nat, round: nat, slot: nat, n: nat)
    requires slot < n && pos == Times(round, n) + slot
    ensures pos % n == slot
  {
    TimesIsProduct(round, n);
    var q := pos / n;
    assert pos == q * n + pos % n;
    if q < round { MulLe(q + 1, round, n); }
    if q > round { MulLe(round + 1, q, n); }
    assert q == round;
  }

  /** The columns a fetch may be asked for: live, drained and named once. */
  ghost predicate Fetchable<V>(cols: seq<Cursor<V>>, ids: seq<nat>)
  {
    Distinct(ids) && forall k :: 0 <= k < |ids| ==> ids[k] < |cols| && !cols[ids[k]].done && cols[ids[k]].queue == []
  }


  /** How a turn of the walk ended. */
  datatype Outcome = Yielded | Stopped | Exhausted | Failed(error: WalkError)

  /** Column `i` is among the first `off` columns counted from `start`, wrapping around. */
  ghost predicate Visited(start: nat, i: nat, off: nat, n: nat)
  {
    TurnOf(start, i, n) < off
  }

  /** How many places from the rotating start a column is visited. */
  function TurnOf(start: nat, i: nat, n: nat): int
  {
    if i >= start then i - start else i + n - start
  }

  /** In the order of a round that begins at `start`. */
  ghost predicate InTurn(ids: seq<nat>, start: nat, n: nat)
  {
    forall j, k :: 0 <= j < k < |ids| ==> TurnOf(start, ids[j], n) < TurnOf(start, ids[k], n)
  }

  /** Nothing in this column's queue precedes `index`. */
  ghost predicate NotBefore<V>(c: Cursor<V>, index: Oid)
  {
    c.queue != [] ==> HasPrefix(c.queue[0].oid, c.root) && AtMost(index, c.queue[0].oid[|c.root|..])
  }

  ghost predicate Forward<V>(before: seq<Cursor<V>>, after: seq<Cursor<V>>, depth: nat)
  {
    |before| == |after| && forall i :: 0 <= i < |before| ==> Moves(before[i], after[i], depth)
  }

  lemma ForwardThen<V>(a: seq<Cursor<V>>, b: seq<Cursor<V>>, c: seq<Cursor<V>>, depth: nat)
    requires Forward(a, b, depth) && Forward(b, c, depth)
    ensures Forward(a, c, depth)
    ensures Gains(a, b, depth) || Gains(b, c, depth) ==> Gains(a, c, depth)
  {
    var ids: seq<nat> := seq(|a|, i => i);
    forall i | 0 <= i < |a| ensures i in ids { assert ids[i] == i; }
    EvolvesThenEvolves(a, b, c, ids, ids, ids, depth);
  }

  ghost predicate RootsAre<V>(cols: seq<Cursor<V>>, roots: seq<Oid>)
  {
    |cols| == |roots| && forall i :: 0 <= i < |cols| ==> cols[i].root == roots[i]
  }

  /** The column's queue starts with `index`. */
  ghost predicate Heads<V>(c: Cursor<V>, index: Oid)
  {
    c.queue != [] && HasPrefix(c.queue[0].oid, c.root) && c.queue[0].oid[|c.root|..] == index
  }

  ghost function Popped<V>(c: Cursor<V>, index: Oid): Cursor<V>
  {
    if Heads(c, index) then c.(queue := c.queue[1..]) else c
  }

  /** One cell for every column that starts with `index`, in column order. */
  ghost predicate RowCells<V>(cols: seq<Cursor<V>>, index: Oid, cells: seq<Cell<V>>)
  {
    CellsUpTo(cols, |cols|, index, cells)
  }

  /** The cells of the first `n` columns. */
  ghost predicate CellsUpTo<V>(cols: seq<Cursor<V>>, n: nat, index: Oid, cells: seq<Cell<V>>)
    requires n <= |cols|
  {
    && (forall k :: 0 <= k < |cells| ==>
          var i := cells[k].column; i < n && Heads(cols[i], index) && cells[k].bind == cols[i].queue[0])
    && (forall j, k :: 0 <= j < k < |cells| ==> cells[j].column < cells[k].column)
    && (forall i :: 0 <= i < n && Heads(cols[i], index) ==> Cell(i, cols[i].queue[0]) in cells)
  }

  lemma OneMoreCell<V>(cols: seq<Cursor<V>>, i: nat, index: Oid, cells: seq<Cell<V>>, more: seq<Cell<V>>)
    requires i < |cols| && CellsUpTo(cols, i, index, cells)
    requires more == if Heads(cols[i], index) then cells + [Cell(i, cols[i].queue[0])] else cells
    ensures CellsUpTo(cols, i + 1, index, more)
  {
    forall c | 0 <= c < i + 1 && Heads(cols[c], index) ensures Cell(c, cols[c].queue[0]) in more {
      if c < i { assert Cell(c, cols[c].queue[0]) in cells; } else { assert more[|cells|] == Cell(i, cols[i].queue[0]); }
    }
    forall k | 0 <= k < |more| ensures var c := more[k].column; c < i + 1 && Heads(cols[c], index) && more[k].bind == cols[c].queue[0] {
      if k < |cells| { assert more[k] == cells[k]; }
    }
    forall j, k | 0 <= j < k < |more| ensures more[j].column < more[k].column {
      assert more[j] == cells[j];
      if k < |cells| { assert more[k] == cells[k]; }
    }
  }

  /** The first `n` columns have been popped, into `cells`. */
  ghost predicate PoppedUpTo<V>(base: seq<Cursor<V>>, cols: seq<Cursor<V>>, n: nat, index: Oid, cells: seq<Cell<V>>)
  {
    && |cols| == |base| && n <= |base|
    && (forall k :: 0 <= k < n ==> cols[k] == Popped(base[k], index)) && cols[n..] == base[n..]
    && CellsUpTo(base, n, index, cells) && Queued(cols) + |cells| == Queued(base)
  }

  lemma PopNone<V>(base: seq<Cursor<V>>, index: Oid)
    ensures PoppedUpTo(base, base, 0, index, [])
  {
    hide Queued;
  }

  lemma PopOne<V>(base: seq<Cursor<V>>, cols: seq<Cursor<V>>, i: nat, index: Oid, cells: seq<Cell<V>>)
    requires i < |base| && PoppedUpTo(base, cols, i, index, cells)
    ensures |cols| == |base| && cols[i] == base[i]
    ensures var c := base[i];
      if c.queue != [] && HasPrefix(c.queue[0].oid, c.root) && c.queue[0].oid[|c.root|..] == index
      then PoppedUpTo(base, cols[i := c.(queue := c.queue[1..])], i + 1, index, cells + [Cell(i, c.queue[0])])
      else PoppedUpTo(base, cols, i + 1, index, cells)
  {
    hide Queued, CellsUpTo;
    var c := base[i];
    assert cols[i] == cols[i..][0] && base[i] == base[i..][0];
    var popped := Popped(c, index);
    assert cols[i := popped][i + 1..] == cols[i..][1..] && base[i + 1..] == base[i..][1..] && cols[i + 1..] == cols[i..][1..];
    if Heads(c, index) {
      OneMoreCell(base, i, index, cells, cells + [Cell(i, c.queue[0])]);
      QueuedUpdate(cols, i, popped);
    } else {
      OneMoreCell(base, i, index, cells, cells);
    }
  }

  lemma PopAll<V>(base: seq<Cursor<V>>, cols: seq<Cursor<V>>, index: Oid, cells: seq<Cell<V>>)
    requires PoppedUpTo(base, cols, |base|, index, cells)
    ensures |cols| == |base| && forall k :: 0 <= k < |cols| ==> cols[k] == Popped(base[k], index)
    ensures RowCells(base, index, cells) && Queued(cols) + |cells| == Queued(base)
  {
    hide Queued, CellsUpTo;
  }

  lemma QueuesFit<V>(cols: seq<Cursor<V>>, last: Oid, cap: nat)
    requires AllOk(cols, last, cap)
    ensures forall i :: 0 <= i < |cols| ==> |cols[i].queue| <= cap
  {
  }

  lemma HeadsBelowRoots<V>(cols: seq<Cursor<V>>, last: Oid, cap: nat)
    requires AllOk(cols, last, cap)
    ensures forall i :: 0 <= i < |cols| && cols[i].queue != [] ==> HasPrefix(cols[i].queue[0].oid, cols[i].root)
  {
    forall i | 0 <= i < |cols| && cols[i].queue != [] ensures HasPrefix(cols[i].queue[0].oid, cols[i].root) {
      assert ColumnOk(cols[i], last, cap);
    }
  }

  lemma FreshRows<V>(view: map<Oid, V>, roots: seq<Oid>, rows: seq<Row<V>>)
    requires rows == []
    ensures RowsOk(rows, roots) && RowsExact(view, rows, roots, [])
  {
  }

  lemma FreshCovers<V>(view: map<Oid, V>, cols: seq<Cursor<V>>)
    requires forall i :: 0 <= i < |cols| ==> cols[i] == Cursor(cols[i].root, cols[i].root, [], false, false)
    ensures AllCover(view, cols, [])
  {
    forall i | 0 <= i < |cols| ensures Covers(view, cols[i], []) {
      var root := cols[i].root;
      forall o | o in view && Under(root, o) && AtMost(o, root) ensures false {
        UnderIsLess(root, o);
        LessTotal(root, o);
      }
    }
  }

  /** The row's index follows the last one and every other value queued follows it. */
  lemma PopKeepsOk<V>(cols: seq<Cursor<V>>, after: seq<Cursor<V>>, index: Oid, last: Oid, cap: nat)
    requires AllOk(cols, last, cap) && |after| == |cols|
    requires forall i :: 0 <= i < |cols| ==> after[i] == Popped(cols[i], index)
    requires forall i :: 0 <= i < |cols| ==> cols[i].done || cols[i].queue != []
    requires forall i :: 0 <= i < |cols| ==> NotBefore(cols[i], index)
    ensures AllOk(after, index, cap)
  {
    forall i | 0 <= i < |cols| ensures ColumnOk(after[i], index, cap) {
      PopOneOk(cols[i], index, last, cap);
    }
  }

  lemma PopOneOk<V>(c: Cursor<V>, index: Oid, last: Oid, cap: nat)
    requires ColumnOk(c, last, cap) && (c.done || c.queue != [])
    requires NotBefore(c, index)
    ensures ColumnOk(Popped(c, index), index, cap)
  {
    if c.queue != [] {
      var head := c.queue[0];
      LessSuffix(c.root, head.oid, c.cursor);
      AtMostTransitive(index, head.oid[|c.root|..], c.cursor[|c.root|..]);
      forall j | 0 < j < |c.queue| ensures Less(index, c.queue[j].oid[|c.root|..]) {
        LessSuffix(c.root, head.oid, c.queue[j].oid);
        AtMostTransitive(index, head.oid[|c.root|..], c.queue[j].oid[|c.root|..]);
      }
    }
  }

  lemma PopShrinks<V>(cols: seq<Cursor<V>>, after: seq<Cursor<V>>, index: Oid, depth: nat)
    requires |after| == |cols| && forall i :: 0 <= i < |cols| ==> after[i] == Popped(cols[i], index)
    requires exists i :: 0 <= i < |cols| && Heads(cols[i], index)
    ensures Total(after, depth) <= Total(cols, depth) && Queued(after) < Queued(cols)
  {
    TotalShrinks(cols, after, depth);
    QueuedShrinks(cols, after);
    var i :| 0 <= i < |cols| && Heads(cols[i], index);
    assert |after[i].queue| < |cols[i].queue|;
  }

  lemma RowExtends<V>(rows: seq<Row<V>>, roots: seq<Oid>, cols: seq<Cursor<V>>, index: Oid, cells: seq<Cell<V>>, cap: nat)
    requires RowsOk(rows, roots) && AllOk(cols, LastIndex(rows), cap) && RootsAre(cols, roots)
    requires RowCells(cols, index, cells) && exists i :: 0 <= i < |cols| && Heads(cols[i], index)
    ensures RowsOk(rows + [Row(index, cells)], roots) && Less(LastIndex(rows), index)
  {
    var i :| 0 <= i < |cols| && Heads(cols[i], index);
    assert ColumnOk(cols[i], LastIndex(rows), cap);
    assert Cell(i, cols[i].queue[0]) in cells;
    forall r | 0 <= r < |rows| ensures Less(rows[r].index, index) {
      if r < |rows| - 1 { LessTransitive(rows[r].index, LastIndex(rows), index); }
    }
    forall k | 0 <= k < |cells|
      ensures cells[k].bind.binding.Value? && cells[k].bind.oid == roots[cells[k].column] + index
    {
      var c := cols[cells[k].column];
      assert ColumnOk(c, LastIndex(rows), cap);
      assert c.queue[0].oid == c.root + c.queue[0].oid[|c.root|..];
    }
  }

  lemma RowExact<V>(view: map<Oid, V>, rows: seq<Row<V>>, roots: seq<Oid>, cols: seq<Cursor<V>>, after: seq<Cursor<V>>,
                    index: Oid, cells: seq<Cell<V>>, cap: nat)
    requires RowsOk(rows, roots) && AllOk(cols, LastIndex(rows), cap) && RootsAre(cols, roots)
    requires RowCells(cols, index, cells) && Less(LastIndex(rows), index)
    requires |after| == |cols| && forall i :: 0 <= i < |cols| ==> after[i] == Popped(cols[i], index)
    requires forall i :: 0 <= i < |cols| ==> cols[i].done || cols[i].queue != []
    requires forall i :: 0 <= i < |cols| ==> NotBefore(cols[i], index)
    requires AllCover(view, cols, LastIndex(rows)) && RowsExact(view, rows, roots, LastIndex(rows))
    ensures AllCover(view, after, index) && RowsExact(view, rows + [Row(index, cells)], roots, index)
  {
    var last, rows' := LastIndex(rows), rows + [Row(index, cells)];
    forall i | 0 <= i < |cols| ensures Covers(view, after[i], index) {
      assert ColumnOk(cols[i], last, cap) && Covers(view, cols[i], last);
      PopOneCovers(view, cols[i], index, last, cap);
    }
    forall c, o | 0 <= c < |roots| && o in view && Under(roots[c], o) && AtMost(o[|roots[c]|..], index)
      ensures HasCell(rows', c, VarBind(o, Value(view[o])))
    {
      var bind, suffix := VarBind(o, Value(view[o])), o[|roots[c]|..];
      LessTotal(suffix, last);
      if AtMost(suffix, last) {
        assert HasCell(rows, c, bind);
        var r :| 0 <= r < |rows| && Cell(c, bind) in rows[r].cells;
        assert rows'[r] == rows[r];
      } else {
        OwedIsHead(view, cols[c], index, last, cap, o);
        assert rows'[|rows|].cells == cells && Cell(c, bind) in cells;
      }
    }
    forall k | 0 <= k < |cells|
      ensures cells[k].bind.oid in view && cells[k].bind.binding == Value(view[cells[k].bind.oid])
    {
      assert Covers(view, cols[cells[k].column], last);
    }
  }

  lemma PopOneCovers<V>(view: map<Oid, V>, c: Cursor<V>, index: Oid, last: Oid, cap: nat)
    requires ColumnOk(c, last, cap) && Covers(view, c, last) && Less(last, index)
    ensures Covers(view, Popped(c, index), index)
  {
    forall o | o in view && Under(c.root, o) && Less(index, o[|c.root|..]) && (c.done || AtMost(o, c.cursor))
      ensures VarBind(o, Value(view[o])) in Popped(c, index).queue
    {
      LessTransitive(last, index, o[|c.root|..]);
      var j :| 0 <= j < |c.queue| && c.queue[j] == VarBind(o, Value(view[o]));
      if Heads(c, index) {
        LessTotal(index, o[|c.root|..]);
        assert j != 0;
        assert c.queue[1..][j - 1] == c.queue[j];
      }
    }
  }

  /** An instance not yet yielded and not after the row's index is the head of its column. */
  lemma OwedIsHead<V>(view: map<Oid, V>, c: Cursor<V>, index: Oid, last: Oid, cap: nat, o: Oid)
    requires ColumnOk(c, last, cap) && Covers(view, c, last) && (c.done || c.queue != [])
    requires NotBefore(c, index)
    requires o in view && Under(c.root, o) && Less(last, o[|c.root|..]) && AtMost(o[|c.root|..], index)
    ensures Heads(c, index) && c.queue[0] == VarBind(o, Value(view[o]))
  {
    if !c.done {
      var head := c.queue[0].oid;
      LessSuffix(c.root, o, head);
      AtMostTransitive(o[|c.root|..], index, head[|c.root|..]);
      AtMostTransitive(o, head, c.cursor);
    }
    var j :| 0 <= j < |c.queue| && c.queue[j] == VarBind(o, Value(view[o]));
    var head := c.queue[0].oid;
    LessSuffix(c.root, head, o);
    AtMostTransitive(o[|c.root|..], index, head[|c.root|..]);
    LessTotal(head[|c.root|..], o[|c.root|..]);
    LessTotal(index, o[|c.root|..]);
    LessTotal(index, head[|c.root|..]);
  }

  datatype Answer<V> = Got(items: seq<VarBind<V>>) | Split | Refused

  /** Nothing changed but a lone column's degradation to GETNEXT. */
  ghost predicate SameButMode<V>(base: seq<Cursor<V>>, cols: seq<Cursor<V>>, ids: seq<nat>)
  {
    && ids != [] && ids[0] < |base|
    && (cols == base || cols == base[ids[0] := base[ids[0]].(getNext := true)])
  }

  lemma ModeOnly<V>(base: seq<Cursor<V>>, cols: seq<Cursor<V>>, ids: seq<nat>, last: Oid, cap: nat, view: map<Oid, V>, count: nat, depth: nat)
    requires SameButMode(base, cols, ids) && AllOk(base, last, cap)
    ensures Evolves(base, cols, ids, depth) && AllOk(cols, last, cap)
    ensures Sound(view, base, last, count) ==> Sound(view, cols, last, count)
  {
    assert ColumnOk(base[ids[0]], last, cap);
    ModeSound(base, cols, ids, last, view, count);
    hide Sound, Covers;
  }

  lemma ModeSound<V>(base: seq<Cursor<V>>, cols: seq<Cursor<V>>, ids: seq<nat>, last: Oid, view: map<Oid, V>, count: nat)
    requires SameButMode(base, cols, ids)
    ensures Sound(view, base, last, count) ==> Sound(view, cols, last, count)
  {
    FoundSame(view, base, cols);
    hide Found;
    if AllCover(view, base, last) { assert Covers(view, base[ids[0]], last); }
  }

  /** What one answer may hold is no more than the repetitions asked for. */
  lemma FitsRequest(reps: nat, n: nat, len: nat)
    requires reps >= 1 && (len == n || len == n * reps)
    ensures len <= Times(reps, n)
  {
    TimesIsProduct(reps, n);
    MulLe(1, reps, n);
  }

  lemma EvolvesCounted<V>(rows: seq<Row<V>>, a: seq<Cursor<V>>, b: seq<Cursor<V>>, ids: seq<nat>, roots: seq<Oid>, count: nat, count': nat, depth: nat)
    requires Evolves(a, b, ids, depth) && RootsAre(a, roots) && Counted(rows, a, count) && Queued(b) + count <= Queued(a) + count'
    ensures RootsAre(b, roots) && Counted(rows, b, count')
  {
  }

  lemma ModeCounted<V>(rows: seq<Row<V>>, cols: seq<Cursor<V>>, roots: seq<Oid>, ids: seq<nat>, count: nat)
    requires Counted(rows, cols, count) && RootsAre(cols, roots) && ids != [] && ids[0] < |cols|
    ensures var cols' := cols[ids[0] := cols[ids[0]].(getNext := true)]; Counted(rows, cols', count) && RootsAre(cols', roots)
  {
    QueuedUpdate(cols, ids[0], cols[ids[0]].(getNext := true));
  }

  lemma Untouched<V>(base: seq<Cursor<V>>, cols: seq<Cursor<V>>, ids: seq<nat>, j: nat, depth: nat)
    requires j < |ids| && Fetchable(base, ids) && Evolves(base, cols, ids[..j], depth)
    ensures Fetchable(cols, [ids[j]])
  {
    assert ids[j] !in ids[..j];
  }

  lemma SecondHalf<V>(base: seq<Cursor<V>>, cols: seq<Cursor<V>>, ids: seq<nat>, half: nat, depth: nat)
    requires half <= |ids| && Fetchable(base, ids) && Evolves(base, cols, ids[..half], depth)
    ensures Fetchable(cols, ids[half..])
  {
    forall k | 0 <= k < |ids[half..]| ensures cols[ids[half..][k]] == base[ids[half..][k]] {
      assert ids[half..][k] == ids[half + k] && ids[half + k] !in ids[..half];
    }
  }

  lemma OthersTracked<V>(asked: seq<Cursor<V>>, before: seq<Cursor<V>>, after: seq<Cursor<V>>, ids: seq<nat>,
                         progress: seq<bool>, slot: nat, depth: nat)
    requires Distinct(ids) && slot < |ids| == |progress|
    requires AllTracked(asked, before, ids[slot..], progress[slot..], depth)
    requires Evolves(before, after, [ids[slot]], depth)
    ensures AllTracked(asked, after, ids[slot + 1..], progress[slot + 1..], depth)
  {
    var rest, moved := ids[slot + 1..], progress[slot + 1..];
    forall t | 0 <= t < |rest| ensures rest[t] < |after| && Tracked(asked[rest[t]], after[rest[t]], moved[t], depth) {
      assert rest[t] == ids[slot..][t + 1] && moved[t] == progress[slot..][t + 1];
      assert Tracked(asked[ids[slot..][t + 1]], before[ids[slot..][t + 1]], progress[slot..][t + 1], depth);
      assert ids[slot + 1 + t] != ids[slot];
    }
  }

  ghost predicate QueueBound<V>(cols: seq<Cursor<V>>, ids: seq<nat>, round: nat, slot: nat)
  {
    forall k :: 0 <= k < |ids| ==> ids[k] < |cols| && |cols[ids[k]].queue| <= round + (if k < slot then 1 else 0)
  }

  ghost predicate AllTracked<V>(base: seq<Cursor<V>>, cols: seq<Cursor<V>>, ids: seq<nat>, progress: seq<bool>, depth: nat)
  {
    |progress| == |ids| && |base| == |cols| &&
    forall k :: 0 <= k < |ids| ==> ids[k] < |cols| && Tracked(base[ids[k]], cols[ids[k]], progress[k], depth)
  }

  ghost predicate AllInStep<V>(cols: seq<Cursor<V>>, oids: seq<Oid>, items: seq<VarBind<V>>, ids: seq<nat>, pos: nat, slot: nat)
    requires slot < |ids| == |oids|
  {
    forall k :: 0 <= k < |ids| ==> ids[k] < |cols| && InStep(cols[ids[k]], oids, items, Upcoming(pos, slot, k, |ids|))
  }

  function NextSlot(slot: nat, n: nat): (r: nat)
    requires slot < n
    ensures r < n
  {
    if slot + 1 == n then 0 else slot + 1
  }

  lemma UpdateOk<V>(cols: seq<Cursor<V>>, cols': seq<Cursor<V>>, i: nat, c': Cursor<V>, last: Oid, cap: nat,
                    view: map<Oid, V>, honest: bool)
    requires i < |cols| && cols' == cols[i := c'] && AllOk(cols, last, cap) && ColumnOk(c', last, cap)
    requires honest ==> AllCover(view, cols, last) && Covers(view, c', last)
    ensures AllOk(cols', last, cap) && (honest ==> AllCover(view, cols', last))
  {
  }

  /** Part way through a response: the columns so far, with `pos` next, in slot `at` of repetition `round`. */
  ghost predicate Mid<V>(cols: seq<Cursor<V>>, now: seq<Cursor<V>>, ids: seq<nat>, oids: seq<Oid>, items: seq<VarBind<V>>,
                         progress: seq<bool>, pos: nat, round: nat, at: nat,
                         last: Oid, cap: nat, depth: nat, view: map<Oid, V>, honest: bool)
  {
    && at < |ids| == |oids| && pos <= |items| && pos == Times(round, |ids|) + at
    && Distinct(ids) && depth >= 128
    && AllOk(now, last, cap) && Evolves(cols, now, ids, depth)
    && QueueBound(now, ids, round, at) && AllTracked(cols, now, ids, progress, depth)
    && (honest ==> HonestItems(view, oids, items) && AllCover(view, now, last) && AllInStep(now, oids, items, ids, pos, at))
    && (if pos == 0 then at == 0 && !now[ids[0]].done else honest ==> FirstMoved(progress))
  }

  predicate FirstMoved(progress: seq<bool>)
  {
    progress != [] && progress[0]
  }

  lemma MidStart<V>(cols: seq<Cursor<V>>, ids: seq<nat>, oids: seq<Oid>, items: seq<VarBind<V>>,
                    progress: seq<bool>, last: Oid, cap: nat, depth: nat, view: map<Oid, V>, honest: bool)
    requires depth >= 128 && AllOk(cols, last, cap) && ids != [] && Fetchable(cols, ids) && |oids| == |ids|
    requires forall k :: 0 <= k < |ids| ==> oids[k] == cols[ids[k]].cursor && Decodable(oids[k])
    requires progress == seq(|ids|, _ => false)
    requires honest ==> HonestItems(view, oids, items) && AllCover(view, cols, last)
    ensures Mid(cols, cols, ids, oids, items, progress, 0, 0, 0, last, cap, depth, view, honest)
  {
    assert Times(0, |ids|) == 0;
  }

  lemma MidSlot<V>(cols: seq<Cursor<V>>, now: seq<Cursor<V>>, ids: seq<nat>, oids: seq<Oid>, items: seq<VarBind<V>>,
                   progress: seq<bool>, pos: nat, round: nat, at: nat,
                   last: Oid, cap: nat, depth: nat, view: map<Oid, V>, honest: bool, reps: nat)
    requires Mid(cols, now, ids, oids, items, progress, pos, round, at, last, cap, depth, view, honest)
    requires pos < |items| <= Times(reps, |ids|) && reps <= cap
    ensures SlotAt(pos, |ids|) == at < |ids| == |progress| && ids[at] < |now| && ColumnOk(now[ids[at]], last, cap)
    ensures |now[ids[at]].queue| < cap
    ensures honest ==> Covers(view, now[ids[at]], last)
    ensures honest && !now[ids[at]].done ==> HonestAnswer(view, now[ids[at]].cursor, items[pos])
  {
    SlotOf(pos, round, at, |ids|);
    RoundFits(pos, round, at, |ids|, reps, |items|);
    if honest {
      assert InStep(now[ids[at]], oids, items, Upcoming(pos, at, at, |ids|));
    }
  }

  lemma MidStep<V>(cols: seq<Cursor<V>>, now: seq<Cursor<V>>, ids: seq<nat>, oids: seq<Oid>, items: seq<VarBind<V>>,
                   progress: seq<bool>, pos: nat, round: nat, at: nat,
                   last: Oid, cap: nat, depth: nat, view: map<Oid, V>, honest: bool, c': Cursor<V>, moved: bool)
    requires Mid(cols, now, ids, oids, items, progress, pos, round, at, last, cap, depth, view, honest)
    requires pos < |items| && ids[at] < |now| && at < |progress|
    requires var c := now[ids[at]];
      && ColumnOk(c', last, cap) && c'.root == c.root && |c'.queue| <= |c.queue| + 1 && (!moved ==> c' == c)
      && (moved ==> Remaining(c', depth) <= Remaining(c, depth) && (Decodable(c.cursor) ==> Remaining(c', depth) < Remaining(c, depth)))
    requires honest ==> Covers(view, c', last) && (!c'.done ==> c'.cursor == items[pos].oid) && (!now[ids[at]].done ==> moved)
    ensures Mid(cols, now[ids[at] := c'], ids, oids, items, if moved then progress[at := true] else progress, pos + 1,
                if at + 1 == |ids| then round + 1 else round, NextSlot(at, |ids|), last, cap, depth, view, honest)
  {
    var after := now[ids[at] := c'];
    TrackOne(cols, now, after, ids, progress, if moved then progress[at := true] else progress, at, c', moved, depth);
    BoundOne(now, after, ids, round, at, c');
    UpdateOk(now, after, ids[at], c', last, cap, view, honest);
    if honest { StepOne(now, after, oids, items, ids, pos, at, c'); }
    assert Times(round + 1, |ids|) == |ids| + Times(round, |ids|);
  }

  lemma MidRoots<V>(cols: seq<Cursor<V>>, now: seq<Cursor<V>>, ids: seq<nat>, oids: seq<Oid>, items: seq<VarBind<V>>,
                    progress: seq<bool>, pos: nat, round: nat, at: nat,
                    last: Oid, cap: nat, depth: nat, view: map<Oid, V>, honest: bool, roots: seq<Oid>)
    requires Mid(cols, now, ids, oids, items, progress, pos, round, at, last, cap, depth, view, honest) && RootsAre(cols, roots)
    ensures RootsAre(now, roots)
  {
    forall i | 0 <= i < |cols| ensures now[i].root == roots[i] { assert Moves(cols[i], now[i], depth); }
  }

  lemma MidEnd<V>(cols: seq<Cursor<V>>, now: seq<Cursor<V>>, ids: seq<nat>, oids: seq<Oid>, items: seq<VarBind<V>>,
                  progress: seq<bool>, pos: nat, round: nat, at: nat,
                  last: Oid, cap: nat, depth: nat, view: map<Oid, V>, honest: bool)
    requires Mid(cols, now, ids, oids, items, progress, pos, round, at, last, cap, depth, view, honest)
    ensures AllOk(now, last, cap) && Evolves(cols, now, ids, depth) && AllTracked(cols, now, ids, progress, depth)
    ensures honest ==> AllCover(view, now, last) && (pos > 0 ==> FirstMoved(progress))
  {
  }

  lemma TrackOne<V>(base: seq<Cursor<V>>, cols: seq<Cursor<V>>, cols': seq<Cursor<V>>, ids: seq<nat>,
                    progress: seq<bool>, progress': seq<bool>, slot: nat, c': Cursor<V>, moved: bool, depth: nat)
    requires Distinct(ids) && slot < |ids| && AllTracked(base, cols, ids, progress, depth) && Evolves(base, cols, ids, depth)
    requires var c := cols[ids[slot]];
      && c'.root == c.root && (!moved ==> c' == c)
      && (moved ==> Remaining(c', depth) <= Remaining(c, depth) && (Decodable(c.cursor) ==> Remaining(c', depth) < Remaining(c, depth)))
    requires cols' == cols[ids[slot] := c'] && progress' == if moved then progress[slot := true] else progress
    ensures AllTracked(base, cols', ids, progress', depth) && Evolves(base, cols', ids, depth)
  {
    var i := ids[slot];
    assert Tracked(base[i], cols[i], progress[slot], depth) && Moves(base[i], cols[i], depth);
    forall k | 0 <= k < |ids| ensures Tracked(base[ids[k]], cols'[ids[k]], progress'[k], depth) {
      assert Tracked(base[ids[k]], cols[ids[k]], progress[k], depth);
      if k != slot { assert ids[k] != i; }
    }
  }

  lemma BoundOne<V>(cols: seq<Cursor<V>>, cols': seq<Cursor<V>>, ids: seq<nat>, round: nat, slot: nat, c': Cursor<V>)
    requires Distinct(ids) && slot < |ids| && QueueBound(cols, ids, round, slot)
    requires |c'.queue| <= |cols[ids[slot]].queue| + 1 && cols' == cols[ids[slot] := c']
    ensures QueueBound(cols', ids, if slot + 1 == |ids| then round + 1 else round, NextSlot(slot, |ids|))
  {
    forall k | 0 <= k < |ids| ensures |cols'[ids[k]].queue| <= round + (if k < slot + 1 then 1 else 0) {
      if k != slot { assert ids[k] != ids[slot]; }
    }
  }

  lemma StepOne<V>(cols: seq<Cursor<V>>, cols': seq<Cursor<V>>, oids: seq<Oid>, items: seq<VarBind<V>>, ids: seq<nat>,
                   pos: nat, slot: nat, c': Cursor<V>)
    requires Distinct(ids) && slot < |ids| == |oids| && pos < |items| && AllInStep(cols, oids, items, ids, pos, slot)
    requires !c'.done ==> c'.cursor == items[pos].oid
    requires cols' == cols[ids[slot] := c']
    ensures AllInStep(cols', oids, items, ids, pos + 1, NextSlot(slot, |ids|))
  {
    var n := |ids|;
    var next := NextSlot(slot, n);
    forall k | 0 <= k < n ensures InStep(cols'[ids[k]], oids, items, Upcoming(pos + 1, next, k, n)) {
      assert InStep(cols[ids[k]], oids, items, Upcoming(pos, slot, k, n));
      if k != slot {
        assert ids[k] != ids[slot];
        assert Upcoming(pos + 1, next, k, n) == Upcoming(pos, slot, k, n);
      } else {
        assert Upcoming(pos + 1, next, k, n) == pos + n;
      }
    }
  }

  /** A column during one response, against the column the response was requested for. */
  ghost predicate Tracked<V>(base: Cursor<V>, c: Cursor<V>, moved: bool, depth: nat)
  {
    Decodable(base.cursor) && !base.done && if moved then Remaining(c, depth) < Remaining(base, depth) else c == base
  }

  /** A live column's cursor is the name the varbind at `pos` succeeds. */
  ghost predicate InStep<V>(c: Cursor<V>, oids: seq<Oid>, items: seq<VarBind<V>>, pos: nat)
    requires |oids| > 0
  {
    pos < |items| + |oids| && (!c.done ==> c.cursor == Source(oids, items, pos))
  }

  /** The first position from `pos` on (which is in `slot`) that belongs to slot `k`. */
  ghost function Upcoming(pos: nat, slot: nat, k: nat, n: nat): nat
    requires slot < n && k < n
  {
    if k >= slot then pos + (k - slot) else pos + (n + k - slot)
  }

  /** Inside a response of at most `n * reps` varbinds no slot has had its `reps` yet. */
  lemma RoundFits(pos: nat, round: nat, slot: nat, n: nat, reps: nat, len: nat)
    requires slot < n && pos == Times(round, n) + slot && pos < len <= Times(reps, n)
    ensures round < reps
  {
    TimesIsProduct(round, n);
    TimesIsProduct(reps, n);
    if round >= reps { MulLe(reps, round, n); }
  }
}
