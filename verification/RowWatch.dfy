/** Row events from leaf-granular updates: the tracked rows, and the watcher that keeps its consumer
    in step with them.

    A row is identified by its chain of list levels.  The codec is any function from an assembled
    document to a row, with any reflexive notion of two rows being equal. */
module RowWatch {
  import opened Common
  import opened RowTree

  datatype Level = Level(name: string, keys: map<string, string>)

  type Id = seq<Level>

  /** Where a path leads: outside the watched subtree, above the list, or into one of its rows. */
  datatype Target = Elsewhere | Above | Within(id: Id, rest: seq<Segment>)

  /** An update; the value is missing when it does not convert to JSON. */
  datatype Update = Update(target: Target, value: Option<Json>)

  datatype Notification = Notification(sync: bool, updates: seq<Update>, deletes: seq<Target>)

  datatype Kind = Added | Modified | Removed

  datatype Event<+Row> = Event(kind: Kind, id: Id, row: Row)

  /** What one update or delete did. */
  datatype Outcome = Ignored | Affected(id: Id) | Gone(ids: set<Id>) | Failed

  // ---------------------------------------------------------------- the document of a row

  /** A row's tree wrapped in the array of each of its levels, keys included, below level `from`. */
  function Wrap(id: Id, tree: Tree, from: nat): Tree
    requires from < |id|
    decreases |id| - from
  {
    if from == |id| - 1 then tree
    else KeyMembers(id[from].keys)[id[from + 1].name := Arr([Obj(Wrap(id, tree, from + 1))])]
  }

  function WrapRow(id: Id, tree: Tree): Json
    requires id != []
  {
    if |id| == 1 && id[0].keys == map[] then Obj(map[id[0].name := Obj(tree)])
    else Obj(map[id[0].name := Arr([Obj(Wrap(id, tree, 0))])])
  }

  /** Whether an ancestor's entry carries its keys, where the next level's list is not in the way. */
  predicate CarriesKeys(entry: Tree, level: Level, next: string)
  {
    forall k :: k in level.keys && k != next ==> k in entry && entry[k] == Str(level.keys[k])
  }

  /** Follows the names and keys of the levels down to the row's own members. */
  function Unwrap(id: Id, entry: Tree, from: nat): Option<Tree>
    requires from < |id|
    decreases |id| - from
  {
    if from == |id| - 1 then Some(entry)
    else
      var items := Items(entry, id[from + 1].name);
      if CarriesKeys(entry, id[from], id[from + 1].name) && |items| == 1 && items[0].Obj? then Unwrap(id, items[0].members, from + 1) else None
  }

  /** Reads a row's document: one member with the outermost list, or with the bare object of a single
      row that has no keys. */
  function UnwrapRow(id: Id, doc: Json): Option<Tree>
    requires id != []
  {
    if !doc.Obj? || doc.members.Keys != {id[0].name} then None
    else if |id| == 1 && id[0].keys == map[] then
      (if doc.members[id[0].name].Obj? then Some(doc.members[id[0].name].members) else None)
    else
      var items := Items(doc.members, id[0].name);
      if |items| == 1 && items[0].Obj? then Unwrap(id, items[0].members, 0) else None
  }

  lemma {:induction false} UnwrapWrap(id: Id, tree: Tree, from: nat)
    requires from < |id|
    ensures Unwrap(id, Wrap(id, tree, from), from) == Some(tree)
    decreases |id| - from
  {
    if from < |id| - 1 { UnwrapWrap(id, tree, from + 1); }
  }

  /** The document holds the row's tree, and holds it where its level chain says, keys included. */
  lemma {:induction false} UnwrapWrapRow(id: Id, tree: Tree)
    requires id != []
    ensures UnwrapRow(id, WrapRow(id, tree)) == Some(tree)
  {
    UnwrapWrap(id, tree, 0);
  }

  // ---------------------------------------------------------------- tracked rows

  function Last(id: Id): Level
    requires id != []
  {
    id[|id| - 1]
  }

  /** A row's tree after an update to it, unless the value does not fit. */
  function RowAfter(text: Rendering, rows: map<Id, Tree>, id: Id, rest: seq<Segment>, value: Json): Option<Tree>
    requires id != []
  {
    var keys := KeyMembers(Last(id).keys);
    if rest == [] then (if value.Obj? then Some(value.members + keys) else None)
    else SetTreeValue(text, if id in rows then rows[id] else keys, rest, value)
  }

  /** An update no row can take: its value does not convert, or is not an object where the path ends
      at a row or a list entry. */
  predicate Unfit(u: Update)
  {
    && u.target.Within? && u.target.id != []
    && (u.value == None || (!u.value.value.Obj? && (u.target.rest == [] || u.target.rest[|u.target.rest| - 1].keys != map[])))
  }

  predicate HasUnfit(n: Notification)
  {
    exists i :: 0 <= i < |n.updates| && Unfit(n.updates[i])
  }

  lemma {:induction false} UnfitExactly(text: Rendering, rows: map<Id, Tree>, u: Update)
    requires u.target.Within? && u.target.id != []
    ensures Unfit(u) <==> u.value == None || RowAfter(text, rows, u.target.id, u.target.rest, u.value.value) == None
  {
    var id, rest := u.target.id, u.target.rest;
    if u.value.Some? && rest != [] {
      SetRefusedExactly(text, if id in rows then rows[id] else KeyMembers(Last(id).keys), rest, u.value.value);
    }
  }

  /** The tracked rows after an update that fits. */
  function Updated(text: Rendering, rows: map<Id, Tree>, u: Update): map<Id, Tree>
  {
    if !u.target.Within? || u.target.id == [] || u.value == None then rows
    else match RowAfter(text, rows, u.target.id, u.target.rest, u.value.value)
      case None => rows
      case Some(tree) => rows[u.target.id := tree]
  }

  function Deleted(text: Rendering, rows: map<Id, Tree>, t: Target): map<Id, Tree>
  {
    match t
    case Elsewhere => rows
    case Above => map[]
    case Within(id, rest) =>
      if id == [] then map[]
      else if id !in rows then rows
      else if rest == [] then rows - {id}
      else rows[id := DeleteTreeValue(text, rows[id], rest)]
  }

  function AllUpdated(text: Rendering, rows: map<Id, Tree>, updates: seq<Update>): map<Id, Tree>
  {
    if updates == [] then rows
    else Updated(text, AllUpdated(text, rows, updates[..|updates| - 1]), updates[|updates| - 1])
  }

  function AllDeleted(text: Rendering, rows: map<Id, Tree>, deletes: seq<Target>): map<Id, Tree>
  {
    if deletes == [] then rows
    else Deleted(text, AllDeleted(text, rows, deletes[..|deletes| - 1]), deletes[|deletes| - 1])
  }

  /** What a batch leaves of the tracked rows. */
  function Applied(text: Rendering, rows: map<Id, Tree>, n: Notification): map<Id, Tree>
  {
    AllDeleted(text, AllUpdated(text, rows, n.updates), n.deletes)
  }

  lemma {:induction false} UpdatedOne(text: Rendering, rows: map<Id, Tree>, u: Update)
    requires u.target.Within? && u.target.id != [] && !Unfit(u)
    ensures var rows' := Updated(text, rows, u);
      rows'.Keys == rows.Keys + {u.target.id} && forall other :: other in rows && other != u.target.id ==> rows'[other] == rows[other]
  {
    UnfitExactly(text, rows, u);
  }

  /** The tracked rows, and whether the initial state is complete, after some notifications: the one
      that ends the initial state carries no changes, every other one its updates and then its deletes. */
  function Replayed(text: Rendering, notifications: seq<Notification>): (map<Id, Tree>, bool)
  {
    if notifications == [] then (map[], false)
    else
      var n := notifications[|notifications| - 1];
      var (rows, synced) := Replayed(text, notifications[..|notifications| - 1]);
      if n.sync && !synced then (rows, true)
      else (Applied(text, rows, n), synced)
  }

  // ---------------------------------------------------------------- what one change does, in reads of the trees

  /** A set inside a row's tree: the value is read back where the keys allow, what could be read at paths apart
      from it still is, and the members beside it are the same. */
  ghost predicate TreeSet(text: Rendering, before: Tree, after: Tree, rest: seq<Segment>, value: Json)
    requires rest != [] && SetTreeValue(text, before, rest, value).Some?
  {
    && (Get(text, after, rest) == Some(Written(text, before, rest, value)) <==> ReadsBack(text, before, rest, value))
    && (forall q :: SparesKeys(rest) && LeavesKeyText(text, rest, value) && Diverge(rest, q) && Get(text, before, q).Some? ==>
          Get(text, after, q) == Get(text, before, q))
    && forall name :: name != rest[0].name ==> (name in after <==> name in before) && (name in before ==> after[name] == before[name])
  }

  /** A deletion inside a row's tree: nothing is read where it was unless an equal entry takes its place, and
      what is read at paths apart from it, and the members beside it, are the same. */
  ghost predicate TreeDeleted(text: Rendering, before: Tree, after: Tree, rest: seq<Segment>)
    requires rest != []
  {
    && (Get(text, after, rest) == None <==> Goes(text, before, rest))
    && (forall q :: SparesKeys(rest) && Diverge(rest, q) ==> Get(text, after, q) == Get(text, before, q))
    && forall name :: name != rest[0].name ==> (name in after <==> name in before) && (name in before ==> after[name] == before[name])
  }

  /** One update: its row, created with its keys if need be, and no other.  A whole-row update leaves exactly
      the members of the value and the keys. */
  ghost predicate StoreUpdated(text: Rendering, before: map<Id, Tree>, after: map<Id, Tree>, u: Update)
  {
    if !u.target.Within? || u.target.id == [] then after == before
    else
      var id, rest, keys := u.target.id, u.target.rest, Last(u.target.id).keys;
      && after.Keys == before.Keys + {id}
      && (forall other :: other in before && other != id ==> after[other] == before[other])
      && u.value.Some?
      && var value := u.value.value;
         if rest == [] then
           && value.Obj? && after[id].Keys == value.members.Keys + keys.Keys
           && forall name :: name in after[id] ==> after[id][name] == if name in keys then Str(keys[name]) else value.members[name]
         else
           var tree := if id in before then before[id] else KeyMembers(keys);
           SetTreeValue(text, tree, rest, value).Some? && TreeSet(text, tree, after[id], rest, value)
  }

  /** One delete: a part of a row, a row, or all rows, and nothing else. */
  ghost predicate StoreDeleted(text: Rendering, before: map<Id, Tree>, after: map<Id, Tree>, t: Target)
  {
    match t
    case Elsewhere => after == before
    case Above => after == map[]
    case Within(id, rest) =>
      if id == [] then after == map[]
      else if id !in before then after == before
      else if rest == [] then after.Keys == before.Keys - {id} && forall other :: other in after ==> after[other] == before[other]
      else
        && after.Keys == before.Keys && (forall other :: other in before && other != id ==> after[other] == before[other])
        && TreeDeleted(text, before[id], after[id], rest)
  }

  lemma {:induction false} UpdatedIs(text: Rendering, rows: map<Id, Tree>, u: Update)
    requires !Unfit(u)
    ensures StoreUpdated(text, rows, Updated(text, rows, u), u)
  {
    if u.target.Within? && u.target.id != [] {
      UnfitExactly(text, rows, u);
      UpdatedOne(text, rows, u);
      var id, rest, keys := u.target.id, u.target.rest, Last(u.target.id).keys;
      if rest != [] {
        var tree := if id in rows then rows[id] else KeyMembers(keys);
        SetIs(text, tree, rest, u.value.value);
      }
    }
  }

  lemma {:induction false} SetIs(text: Rendering, tree: Tree, rest: seq<Segment>, value: Json)
    requires rest != [] && SetTreeValue(text, tree, rest, value).Some?
    ensures TreeSet(text, tree, SetTreeValue(text, tree, rest, value).value, rest, value)
  {
    hide *;
    ReadBackExactly(text, tree, rest, value);
    SetFrames(text, tree, rest, value);
    var after := SetTreeValue(text, tree, rest, value).value;
    forall name | name != rest[0].name ensures (name in after <==> name in tree) && (name in tree ==> after[name] == tree[name]) {
      SetLeavesOthers(text, tree, rest, value, name);
    }
    TreeSetIs(text, tree, after, rest, value);
  }

  lemma {:induction false} SetFrames(text: Rendering, tree: Tree, rest: seq<Segment>, value: Json)
    requires rest != [] && SetTreeValue(text, tree, rest, value).Some?
    ensures forall q :: SparesKeys(rest) && LeavesKeyText(text, rest, value) && Diverge(rest, q) && Get(text, tree, q).Some? ==>
      Get(text, SetTreeValue(text, tree, rest, value).value, q) == Get(text, tree, q)
  {
    hide Get, SetTreeValue, LeavesKeyText, SparesKeys;
    forall q | SparesKeys(rest) && LeavesKeyText(text, rest, value) && Diverge(rest, q) && Get(text, tree, q).Some?
      ensures Get(text, SetTreeValue(text, tree, rest, value).value, q) == Get(text, tree, q)
    {
      SetFrame(text, tree, rest, value, q);
    }
  }

  lemma {:induction false} TreeSetIs(text: Rendering, before: Tree, after: Tree, rest: seq<Segment>, value: Json)
    requires rest != [] && SetTreeValue(text, before, rest, value).Some?
    requires Get(text, after, rest) == Some(Written(text, before, rest, value)) <==> ReadsBack(text, before, rest, value)
    requires forall q :: SparesKeys(rest) && LeavesKeyText(text, rest, value) && Diverge(rest, q) && Get(text, before, q).Some? ==>
      Get(text, after, q) == Get(text, before, q)
    requires forall name :: name != rest[0].name ==> (name in after <==> name in before) && (name in before ==> after[name] == before[name])
    ensures TreeSet(text, before, after, rest, value)
  {
  }

  lemma {:induction false} DeletedIs(text: Rendering, rows: map<Id, Tree>, t: Target)
    ensures StoreDeleted(text, rows, Deleted(text, rows, t), t)
  {
    if t.Within? && t.id != [] && t.id in rows && t.rest != [] { DeletionIs(text, rows[t.id], t.rest); }
  }

  lemma {:induction false} DeletionIs(text: Rendering, tree: Tree, rest: seq<Segment>)
    requires rest != []
    ensures TreeDeleted(text, tree, DeleteTreeValue(text, tree, rest), rest)
  {
    DeletedExactly(text, tree, rest);
    DeleteLeavesOthers(text, tree, rest);
    hide Get, DeleteTreeValue, Goes, Diverge, SparesKeys;
    var after := DeleteTreeValue(text, tree, rest);
    forall q | SparesKeys(rest) && Diverge(rest, q) ensures Get(text, after, q) == Get(text, tree, q) { DeleteFrame(text, tree, rest, q); }
  }

  // ---------------------------------------------------------------- a whole subscription, change by change

  datatype Change = Up(update: Update) | Del(target: Target)

  function Ups(updates: seq<Update>): seq<Change>
  {
    seq(|updates|, i requires 0 <= i < |updates| => Up(updates[i]))
  }

  function Dels(deletes: seq<Target>): seq<Change>
  {
    seq(|deletes|, i requires 0 <= i < |deletes| => Del(deletes[i]))
  }

  /** The changes notifications carry, in the order they take effect: the updates of each and then its deletes.
      The first one that ends the initial state carries none. */
  function Changes(notifications: seq<Notification>): seq<Change>
  {
    if notifications == [] then []
    else
      var before, n := notifications[..|notifications| - 1], notifications[|notifications| - 1];
      Changes(before) + if n.sync && (forall i :: 0 <= i < |before| ==> !before[i].sync) then [] else Ups(n.updates) + Dels(n.deletes)
  }

  /** `trace` are the tracked rows after each change, from `trace[0]` on. */
  ghost predicate Follows(text: Rendering, changes: seq<Change>, trace: seq<map<Id, Tree>>)
  {
    && |trace| == |changes| + 1
    && forall i :: 0 <= i < |changes| ==>
         match changes[i]
         case Up(u) => Unfit(u) || StoreUpdated(text, trace[i], trace[i + 1], u)
         case Del(t) => StoreDeleted(text, trace[i], trace[i + 1], t)
  }

  lemma {:induction false} FollowsOne(text: Rendering, changes: seq<Change>, trace: seq<map<Id, Tree>>, c: Change, rows: map<Id, Tree>)
    requires Follows(text, changes, trace)
    requires match c
      case Up(u) => Unfit(u) || StoreUpdated(text, trace[|changes|], rows, u)
      case Del(t) => StoreDeleted(text, trace[|changes|], rows, t)
    ensures Follows(text, changes + [c], trace + [rows])
  {
    hide StoreUpdated, StoreDeleted, Unfit;
    var all, longer := changes + [c], trace + [rows];
    forall i | 0 <= i < |all| ensures match all[i]
      case Up(u) => Unfit(u) || StoreUpdated(text, longer[i], longer[i + 1], u)
      case Del(t) => StoreDeleted(text, longer[i], longer[i + 1], t)
    {
      if i < |changes| { assert all[i] == changes[i] && longer[i] == trace[i] && longer[i + 1] == trace[i + 1]; }
    }
  }

  lemma {:induction false} UpsOne(changes: seq<Change>, front: seq<Update>, u: Update)
    ensures changes + Ups(front) + [Up(u)] == changes + Ups(front + [u])
  {
  }

  lemma {:induction false} DelsOne(changes: seq<Change>, front: seq<Target>, t: Target)
    ensures changes + Dels(front) + [Del(t)] == changes + Dels(front + [t])
  {
  }

  lemma {:induction false} UpsFollow(text: Rendering, changes: seq<Change>, trace: seq<map<Id, Tree>>, updates: seq<Update>) returns (longer: seq<map<Id, Tree>>)
    requires Follows(text, changes, trace)
    ensures Follows(text, changes + Ups(updates), longer) && trace <= longer
    ensures longer[|longer| - 1] == AllUpdated(text, trace[|trace| - 1], updates)
    decreases |updates|
  {
    if updates == [] {
      longer := trace;
      assert changes + Ups(updates) == changes;
    } else {
      var front, u := updates[..|updates| - 1], updates[|updates| - 1];
      var before := UpsFollow(text, changes, trace, front);
      assert |before| == |changes + Ups(front)| + 1 && updates == front + [u];
      hide Follows, Ups, StoreUpdated, Unfit, Updated;
      var rows := Updated(text, before[|before| - 1], u);
      if !Unfit(u) { UpdatedIs(text, before[|before| - 1], u); }
      FollowsOne(text, changes + Ups(front), before, Up(u), rows);
      UpsOne(changes, front, u);
      longer := before + [rows];
    }
  }

  lemma {:induction false} DelsFollow(text: Rendering, changes: seq<Change>, trace: seq<map<Id, Tree>>, deletes: seq<Target>) returns (longer: seq<map<Id, Tree>>)
    requires Follows(text, changes, trace)
    ensures Follows(text, changes + Dels(deletes), longer) && trace <= longer
    ensures longer[|longer| - 1] == AllDeleted(text, trace[|trace| - 1], deletes)
    decreases |deletes|
  {
    if deletes == [] {
      longer := trace;
      assert changes + Dels(deletes) == changes;
    } else {
      var front, t := deletes[..|deletes| - 1], deletes[|deletes| - 1];
      var before := DelsFollow(text, changes, trace, front);
      assert |before| == |changes + Dels(front)| + 1 && deletes == front + [t];
      hide Follows, Dels, StoreDeleted, Deleted;
      var rows := Deleted(text, before[|before| - 1], t);
      DeletedIs(text, before[|before| - 1], t);
      FollowsOne(text, changes + Dels(front), before, Del(t), rows);
      DelsOne(changes, front, t);
      longer := before + [rows];
    }
  }

  lemma {:induction false} BatchFollows(text: Rendering, changes: seq<Change>, trace: seq<map<Id, Tree>>, n: Notification) returns (longer: seq<map<Id, Tree>>)
    requires Follows(text, changes, trace)
    ensures Follows(text, changes + (Ups(n.updates) + Dels(n.deletes)), longer) && trace <= longer
    ensures longer[|longer| - 1] == Applied(text, trace[|trace| - 1], n)
  {
    hide Follows, Ups, Dels, AllUpdated, AllDeleted;
    longer := UpsFollow(text, changes, trace, n.updates);
    longer := DelsFollow(text, changes + Ups(n.updates), longer, n.deletes);
    assert changes + Ups(n.updates) + Dels(n.deletes) == changes + (Ups(n.updates) + Dels(n.deletes));
  }

  /** The initial state is complete once a notification said so. */
  lemma {:induction false} ReplaySynced(text: Rendering, notifications: seq<Notification>)
    ensures Replayed(text, notifications).1 <==> exists i :: 0 <= i < |notifications| && notifications[i].sync
  {
    hide Applied;
    if notifications != [] {
      var before, n := notifications[..|notifications| - 1], notifications[|notifications| - 1];
      ReplaySynced(text, before);
      if i :| 0 <= i < |before| && before[i].sync { assert notifications[i].sync; }
      if i :| 0 <= i < |notifications| && notifications[i].sync {
        if i < |before| { assert before[i].sync; }
      }
    }
  }

  /** The rows tracked after some notifications are what is left after following their changes one by one,
      from no rows at all. */
  lemma {:induction false} ReplayFollows(text: Rendering, notifications: seq<Notification>) returns (trace: seq<map<Id, Tree>>)
    ensures Follows(text, Changes(notifications), trace) && trace != [] && trace[0] == map[]
    ensures trace[|trace| - 1] == Replayed(text, notifications).0
    decreases |notifications|
  {
    if notifications == [] {
      trace := [map[]];
    } else {
      hide Follows, Applied, Ups, Dels;
      var before, n := notifications[..|notifications| - 1], notifications[|notifications| - 1];
      trace := ReplayFollows(text, before);
      ReplaySynced(text, before);
      if !(n.sync && !Replayed(text, before).1) { trace := BatchFollows(text, Changes(before), trace, n); }
    }
  }

  class RowStore {
    const text: Rendering
    var rows: map<Id, Tree>

    constructor (text: Rendering)
      ensures this.text == text && rows == map[]
    {
      this.text, rows := text, map[];
    }

    /** Merges one update into its row's tree, creating the row if needed. */
    method ApplyUpdate(u: Update) returns (outcome: Outcome)
      modifies this
      ensures !Unfit(u) ==> rows == Updated(text, old(rows), u) && StoreUpdated(text, old(rows), rows, u)
      ensures outcome == if !u.target.Within? || u.target.id == [] then Ignored else if Unfit(u) then Failed else Affected(u.target.id)
    {
      if !Unfit(u) { UpdatedIs(text, rows, u); }
      hide StoreUpdated;
      if !u.target.Within? || u.target.id == [] { return Ignored; }
      UnfitExactly(text, rows, u);
      var id, rest := u.target.id, u.target.rest;
      var keys := KeyMembers(Last(id).keys);
      if id !in rows { rows := rows[id := keys]; }
      if u.value == None { return Failed; }
      var value := u.value.value;
      if rest == [] {
        if !value.Obj? { return Failed; }
        rows := rows[id := value.members + keys];
        return Affected(id);
      }
      var tree := SetTreeValue(text, rows[id], rest, value);
      if tree == None { return Failed; }
      rows := rows[id := tree.value];
      return Affected(id);
    }

    /** Removes what a path addresses: a part of a row, a row, or all of them. */
    method ApplyDelete(t: Target) returns (outcome: Outcome)
      modifies this
      ensures rows == Deleted(text, old(rows), t) && StoreDeleted(text, old(rows), rows, t)
      ensures outcome ==
        if t.Elsewhere? then Ignored
        else if t.Above? || t.id == [] then Gone(old(rows).Keys)
        else if t.id !in old(rows) then Ignored
        else if t.rest == [] then Gone({t.id})
        else Affected(t.id)
    {
      DeletedIs(text, rows, t);
      hide StoreDeleted;
      match t
      case Elsewhere => return Ignored;
      case Above =>
        outcome := Gone(rows.Keys);
        rows := map[];
      case Within(id, rest) =>
        if id == [] {
          outcome := Gone(rows.Keys);
          rows := map[];
          return;
        }
        if id !in rows { return Ignored; }
        if rest == [] {
          rows := rows - {id};
          return Gone({id});
        }
        rows := rows[id := DeleteTreeValue(text, rows[id], rest)];
        return Affected(id);
    }
  }

  // ---------------------------------------------------------------- the event stream

  /** What a consumer holds after the events. */
  function Fold<Row>(events: seq<Event<Row>>): map<Id, Row>
  {
    if events == [] then map[]
    else
      var before, e := Fold(events[..|events| - 1]), events[|events| - 1];
      if e.kind == Removed then before - {e.id} else before[e.id := e.row]
  }

  /** Whether an event says something new to a consumer that holds `rows`: additions of rows it does
      not hold, changes to what it holds, and removals of exactly what it holds. */
  ghost predicate Legal<Row(!new)>(equal: (Row, Row) -> bool, rows: map<Id, Row>, e: Event<Row>)
  {
    match e.kind
    case Added => e.id !in rows
    case Modified => e.id in rows && !equal(rows[e.id], e.row)
    case Removed => e.id in rows && rows[e.id] == e.row
  }

  ghost predicate AllLegal<Row(!new)>(equal: (Row, Row) -> bool, events: seq<Event<Row>>)
  {
    forall i :: 0 <= i < |events| ==> Legal(equal, Fold(events[..i]), events[i])
  }

  /** At most one event a row from `start` on, and only for the rows of `ids`. */
  ghost predicate OncePerRow<Row>(events: seq<Event<Row>>, start: nat, ids: set<Id>)
  {
    && (forall i :: start <= i < |events| ==> events[i].id in ids)
    && (forall i, j :: start <= i < j < |events| ==> events[i].id != events[j].id)
  }

  lemma {:induction false} FoldSnoc<Row>(events: seq<Event<Row>>, e: Event<Row>)
    ensures Fold(events + [e]) == if e.kind == Removed then Fold(events) - {e.id} else Fold(events)[e.id := e.row]
  {
    assert (events + [e])[..|events|] == events;
  }

  lemma {:induction false} LegalSnoc<Row(!new)>(equal: (Row, Row) -> bool, events: seq<Event<Row>>, e: Event<Row>)
    requires AllLegal(equal, events) && Legal(equal, Fold(events), e)
    ensures AllLegal(equal, events + [e])
  {
    var more := events + [e];
    forall i | 0 <= i < |more| ensures Legal(equal, Fold(more[..i]), more[i]) {
      if i < |events| { assert more[..i] == events[..i]; } else { assert more[..i] == events; }
    }
  }

  // ---------------------------------------------------------------- a consumer that goes by the codec's key

  /** What a consumer holds that files each row under the key the codec reads off it. */
  function KeyFold<Row, Key>(key: Row -> Key, events: seq<Event<Row>>): map<Key, Row>
  {
    if events == [] then map[]
    else
      var before, e := KeyFold(key, events[..|events| - 1]), events[|events| - 1];
      if e.kind == Removed then before - {key(e.row)} else before[key(e.row) := e.row]
  }

  function KeysOf<Row, Key>(key: Row -> Key, held: map<Id, Row>): set<Key>
  {
    set id | id in held :: key(held[id])
  }

  /** The rows filed by key are the rows held, each under its own key and as many. */
  ghost predicate Rebuilds<Row, Key>(key: Row -> Key, held: map<Id, Row>, filed: map<Key, Row>)
  {
    |filed| == |held| && filed.Keys == KeysOf(key, held) && forall id :: id in held ==> filed[key(held[id])] == held[id]
  }

  ghost predicate Apart<Row, Key>(key: Row -> Key, held: map<Id, Row>)
  {
    forall a, b :: a in held && b in held && key(held[a]) == key(held[b]) ==> a == b
  }

  /** The event leaves its row's key as it was, and no two rows with one key. */
  ghost predicate KeepsKeys<Row, Key>(key: Row -> Key, held: map<Id, Row>, e: Event<Row>)
  {
    && (e.kind == Modified && e.id in held ==> key(held[e.id]) == key(e.row))
    && (e.kind != Removed ==> Apart(key, held[e.id := e.row]))
  }

  ghost predicate RebuiltAt<Row, Key>(key: Row -> Key, events: seq<Event<Row>>, i: nat)
    requires i <= |events|
  {
    Rebuilds(key, Fold(events[..i]), KeyFold(key, events[..i]))
  }

  ghost predicate KeepsKeysAt<Row, Key>(key: Row -> Key, events: seq<Event<Row>>, i: nat)
    requires i < |events|
  {
    KeepsKeys(key, Fold(events[..i]), events[i])
  }

  /** Filing by the codec's key rebuilds the rows after every event exactly when no event changes the key of
      its row or gives two rows one key. */
  lemma {:induction false} KeyFoldExactly<Row(!new), Key(!new)>(key: Row -> Key, equal: (Row, Row) -> bool, events: seq<Event<Row>>)
    requires AllLegal(equal, events)
    ensures (forall i :: 0 <= i <= |events| ==> RebuiltAt(key, events, i)) <==> forall i :: 0 <= i < |events| ==> KeepsKeysAt(key, events, i)
  {
    FiledUpTo(key, equal, events, |events|);
  }

  lemma {:induction false} FiledUpTo<Row(!new), Key(!new)>(key: Row -> Key, equal: (Row, Row) -> bool, events: seq<Event<Row>>, n: nat)
    requires AllLegal(equal, events) && n <= |events|
    ensures (forall i :: 0 <= i <= n ==> RebuiltAt(key, events, i)) <==> forall i :: 0 <= i < n ==> KeepsKeysAt(key, events, i)
  {
    hide *;
    if n == 0 {
      FiledNone(key, events);
    } else {
      FiledUpTo(key, equal, events, n - 1);
      if RebuiltAt(key, events, n - 1) { FiledOne(key, equal, events, n - 1); }
    }
  }

  lemma {:induction false} FiledNone<Row, Key>(key: Row -> Key, events: seq<Event<Row>>)
    ensures RebuiltAt(key, events, 0)
  {
    assert events[..0] == [];
  }

  lemma {:induction false} FiledOne<Row(!new), Key(!new)>(key: Row -> Key, equal: (Row, Row) -> bool, events: seq<Event<Row>>, i: nat)
    requires AllLegal(equal, events) && i < |events| && RebuiltAt(key, events, i)
    ensures RebuiltAt(key, events, i + 1) <==> KeepsKeysAt(key, events, i)
  {
    var before, e := events[..i], events[i];
    LegalAt(equal, events, i);
    assert events[..i + 1] == before + [e];
    hide AllLegal, Rebuilds, KeepsKeys, Legal, Fold, KeyFold;
    FoldSnoc(before, e);
    KeyFoldSnoc(key, before, e);
    OneFiled(key, equal, Fold(before), KeyFold(key, before), e);
  }

  lemma {:induction false} LegalAt<Row(!new)>(equal: (Row, Row) -> bool, events: seq<Event<Row>>, i: nat)
    requires AllLegal(equal, events) && i < |events|
    ensures Legal(equal, Fold(events[..i]), events[i])
  {
  }

  lemma {:induction false} KeyFoldSnoc<Row, Key>(key: Row -> Key, events: seq<Event<Row>>, e: Event<Row>)
    ensures KeyFold(key, events + [e]) ==
      if e.kind == Removed then KeyFold(key, events) - {key(e.row)} else KeyFold(key, events)[key(e.row) := e.row]
  {
    assert (events + [e])[..|events|] == events;
  }

  lemma {:induction false} OneFiled<Row(!new), Key(!new)>(key: Row -> Key, equal: (Row, Row) -> bool, held: map<Id, Row>, filed: map<Key, Row>, e: Event<Row>)
    requires Rebuilds(key, held, filed) && Legal(equal, held, e)
    ensures var held' := if e.kind == Removed then held - {e.id} else held[e.id := e.row];
      var filed' := if e.kind == Removed then filed - {key(e.row)} else filed[key(e.row) := e.row];
      Rebuilds(key, held', filed') <==> KeepsKeys(key, held, e)
  {
    RebuiltApart(key, held, filed);
    if e.kind == Removed {
      OneRemoved(key, held, filed, e);
    } else {
      var held', filed' := held[e.id := e.row], filed[key(e.row) := e.row];
      if Rebuilds(key, held', filed') {
        RebuiltApart(key, held', filed');
        if e.kind == Modified { ModifiedKeepsKey(key, held, filed, e); }
      }
      if KeepsKeys(key, held, e) {
        if e.kind == Added { OneAdded(key, held, filed, e); } else { OneModified(key, held, filed, e); }
      }
      hide Rebuilds, Apart;
    }
  }

  lemma {:induction false} OneAdded<Row, Key>(key: Row -> Key, held: map<Id, Row>, filed: map<Key, Row>, e: Event<Row>)
    requires Rebuilds(key, held, filed) && e.id !in held && Apart(key, held[e.id := e.row])
    ensures Rebuilds(key, held[e.id := e.row], filed[key(e.row) := e.row])
  {
    NewKey(key, held, e.id, e.row);
    KeysPut(key, held, e.id, e.row);
    PutSize(held, e.id, e.row);
    PutSize(filed, key(e.row), e.row);
    forall id | id in held ensures key(held[id]) in filed && key(held[id]) != key(e.row) { KeyIn(key, held, id); }
    hide KeysOf, Apart;
  }

  lemma PutSize<K, V>(m: map<K, V>, k: K, v: V)
    requires k !in m
    ensures |m[k := v]| == |m| + 1 && m[k := v].Keys == m.Keys + {k}
  {
    assert m[k := v].Keys == m.Keys + {k};
  }

  lemma {:induction false} OneModified<Row, Key>(key: Row -> Key, held: map<Id, Row>, filed: map<Key, Row>, e: Event<Row>)
    requires Rebuilds(key, held, filed) && Apart(key, held) && e.id in held && key(held[e.id]) == key(e.row)
    ensures Rebuilds(key, held[e.id := e.row], filed[key(e.row) := e.row])
  {
    var held', filed' := held[e.id := e.row], filed[key(e.row) := e.row];
    KeyIn(key, held, e.id);
    assert held'.Keys == held.Keys && filed'.Keys == filed.Keys;
    KeysReplaced(key, held, e.id, e.row);
    hide KeysOf;
    forall id | id in held' ensures filed'[key(held'[id])] == held'[id] {
      if id != e.id { assert held'[id] == held[id] && key(held[id]) != key(e.row); }
    }
  }

  lemma {:induction false} NewKey<Row, Key>(key: Row -> Key, held: map<Id, Row>, id: Id, row: Row)
    requires id !in held && Apart(key, held[id := row])
    ensures key(row) !in KeysOf(key, held)
  {
    var held' := held[id := row];
    assert id in held' && held'[id] == row;
    forall x | x in held ensures key(held[x]) != key(row) { assert x in held' && held'[x] == held[x]; }
  }

  lemma {:induction false} KeyIn<Row, Key>(key: Row -> Key, held: map<Id, Row>, id: Id)
    requires id in held
    ensures key(held[id]) in KeysOf(key, held)
  {
  }

  lemma {:induction false} KeysPut<Row, Key>(key: Row -> Key, held: map<Id, Row>, id: Id, row: Row)
    requires id !in held
    ensures KeysOf(key, held[id := row]) == KeysOf(key, held) + {key(row)}
  {
    var held' := held[id := row];
    assert held'[id] == row && forall x :: x in held ==> held'[x] == held[x];
    forall k | k in KeysOf(key, held) ensures k in KeysOf(key, held') {
      var x :| x in held && key(held[x]) == k;
      KeyIn(key, held', x);
    }
    KeyIn(key, held', id);
  }

  lemma {:induction false} KeysReplaced<Row, Key>(key: Row -> Key, held: map<Id, Row>, id: Id, row: Row)
    requires id in held && key(held[id]) == key(row)
    ensures KeysOf(key, held[id := row]) == KeysOf(key, held)
  {
    var held' := held[id := row];
    assert forall x :: x in held ==> key(held'[x]) == key(held[x]);
    forall k ensures k in KeysOf(key, held') <==> k in KeysOf(key, held) {
      if x :| x in held && key(held[x]) == k { KeyIn(key, held', x); }
    }
  }

  /** The old key would be left without a row. */
  lemma {:induction false} ModifiedKeepsKey<Row, Key>(key: Row -> Key, held: map<Id, Row>, filed: map<Key, Row>, e: Event<Row>)
    requires Rebuilds(key, held, filed) && Apart(key, held) && e.id in held
    requires Rebuilds(key, held[e.id := e.row], filed[key(e.row) := e.row])
    ensures key(held[e.id]) == key(e.row)
  {
    var held', filed' := held[e.id := e.row], filed[key(e.row) := e.row];
    KeyIn(key, held, e.id);
    assert key(held[e.id]) in filed'.Keys;
    var id :| id in held' && key(held'[id]) == key(held[e.id]);
  }

  lemma {:induction false} OneRemoved<Row, Key>(key: Row -> Key, held: map<Id, Row>, filed: map<Key, Row>, e: Event<Row>)
    requires Rebuilds(key, held, filed) && Apart(key, held) && e.id in held && held[e.id] == e.row
    ensures Rebuilds(key, held - {e.id}, filed - {key(e.row)})
  {
    var held', filed' := held - {e.id}, filed - {key(e.row)};
    KeyIn(key, held, e.id);
    assert held'.Keys == held.Keys - {e.id} && filed'.Keys == filed.Keys - {key(e.row)};
    KeysWithout(key, held, e.id);
    hide KeysOf;
    forall id | id in held' ensures filed'[key(held'[id])] == held'[id] {
      assert held'[id] == held[id] && key(held[id]) != key(held[e.id]);
      KeyIn(key, held, id);
    }
  }

  lemma {:induction false} KeysWithout<Row, Key>(key: Row -> Key, held: map<Id, Row>, id: Id)
    requires id in held && Apart(key, held)
    ensures KeysOf(key, held - {id}) == KeysOf(key, held) - {key(held[id])}
  {
    var held' := held - {id};
    assert forall x :: x in held' ==> held'[x] == held[x];
    forall k ensures k in KeysOf(key, held') <==> k in KeysOf(key, held) - {key(held[id])} {
      if k in KeysOf(key, held) - {key(held[id])} {
        var x :| x in held && key(held[x]) == k;
        KeyIn(key, held', x);
      }
    }
  }

  /** As many keys as rows means that no two rows share one. */
  lemma {:induction false} RebuiltApart<Row, Key>(key: Row -> Key, held: map<Id, Row>, filed: map<Key, Row>)
    requires Rebuilds(key, held, filed)
    ensures Apart(key, held)
  {
    forall a, b | a in held && b in held && key(held[a]) == key(held[b]) ensures a == b {
      if a != b {
        var ids := held.Keys - {a};
        var keys := set id | id in ids :: key(held[id]);
        forall k | k in filed.Keys ensures k in keys {
          var id :| id in held && key(held[id]) == k;
          if id == a { assert b in ids; } else { assert id in ids; }
        }
        SubsetSize(filed.Keys, keys);
        KeysFew(key, held, ids);
        assert false;
      }
    }
  }

  lemma {:induction false} KeysFew<Row, Key>(key: Row -> Key, held: map<Id, Row>, ids: set<Id>)
    requires ids <= held.Keys
    ensures |set id | id in ids :: key(held[id])| <= |ids|
    decreases ids
  {
    if ids != {} {
      var id :| id in ids;
      KeysFew(key, held, ids - {id});
      var all, fewer := set x | x in ids :: key(held[x]), set x | x in ids - {id} :: key(held[x]);
      assert all == fewer + {key(held[id])};
    }
  }

  // ---------------------------------------------------------------- rows as the codec reads them

  type Codec<!Row> = Json -> Option<Row>

  /** Some document is one the codec refuses. */
  ghost predicate Refuses<Row(!new)>(codec: Codec<Row>)
  {
    exists doc :: codec(doc) == None
  }

  /** A row as the codec reads it off its document. */
  function Decode<Row>(codec: Codec<Row>, rows: map<Id, Tree>, id: Id): Option<Row>
  {
    if id in rows && id != [] then codec(WrapRow(id, rows[id])) else None
  }

  lemma {:induction false} DecodeRefused<Row(!new)>(codec: Codec<Row>, rows: map<Id, Tree>, id: Id)
    ensures id in rows && id != [] && Decode(codec, rows, id) == None ==> Refuses(codec)
  {
  }

  /** The consumer's row is equal to the tracked one. */
  ghost predicate UpToDate<Row>(codec: Codec<Row>, equal: (Row, Row) -> bool, rows: map<Id, Tree>, held: map<Id, Row>, id: Id)
  {
    && id in held && Decode(codec, rows, id).Some? && equal(held[id], Decode(codec, rows, id).value)
  }

  /** The consumer holds the tracked rows, and each of them up to date. */
  ghost predicate InStep<Row>(codec: Codec<Row>, equal: (Row, Row) -> bool, rows: map<Id, Tree>, held: map<Id, Row>)
  {
    held.Keys == rows.Keys && forall id :: id in rows ==> UpToDate(codec, equal, rows, held, id)
  }

  /** What a batch did to the tracked rows: only affected rows may differ, only removed ones are gone. */
  ghost predicate Touched(before: map<Id, Tree>, rows: map<Id, Tree>, affected: set<Id>, removed: set<Id>)
  {
    && affected <= rows.Keys && removed !! rows.Keys
    && (forall id :: id in rows && id !in affected ==> id in before && rows[id] == before[id])
    && (forall id :: id in before && id !in rows ==> id in removed)
  }

  /** What remains to be told: rows neither affected nor removed are up to date, and the consumer
      holds nothing else. */
  ghost predicate Behind<Row>(codec: Codec<Row>, equal: (Row, Row) -> bool, rows: map<Id, Tree>, held: map<Id, Row>, affected: set<Id>, removed: set<Id>)
  {
    && affected <= rows.Keys && removed !! rows.Keys && held.Keys <= rows.Keys + removed && [] !in rows
    && forall id :: id in rows && id !in affected ==> UpToDate(codec, equal, rows, held, id)
  }

  lemma {:induction false} TouchedIsBehind<Row>(codec: Codec<Row>, equal: (Row, Row) -> bool, before: map<Id, Tree>, rows: map<Id, Tree>, held: map<Id, Row>, affected: set<Id>, removed: set<Id>)
    requires InStep(codec, equal, before, held) && Touched(before, rows, affected, removed) && [] !in rows
    ensures Behind(codec, equal, rows, held, affected, removed)
  {
    forall id | id in rows && id !in affected ensures UpToDate(codec, equal, rows, held, id) {
      assert UpToDate(codec, equal, before, held, id);
    }
  }

  class Watcher<Row(!new)> {
    const codec: Codec<Row>
    const equal: (Row, Row) -> bool
    const store: RowStore
    var emitted: map<Id, Row>
    var synced: bool
    var failed: bool
    var closed: bool               // the consumer terminated
    var patience: nat              // how many more events it takes before it does
    var events: seq<Event<Row>>    // what it was sent

    constructor (text: Rendering, codec: Codec<Row>, equal: (Row, Row) -> bool, patience: nat)
      ensures this.codec == codec && this.equal == equal && fresh(store) && store.rows == map[]
      ensures !synced && !failed && !closed && emitted == map[] && events == []
    {
      this.codec, this.equal, this.patience := codec, equal, patience;
      store := new RowStore(text);
      emitted, synced, failed, closed, events := map[], false, false, false, [];
    }

    ghost predicate Valid()
      reads this
    {
      && (forall r :: equal(r, r)) && AllLegal(equal, events) && (!closed ==> Fold(events) == emitted)
      && (!synced ==> events == [] && emitted == map[]) && (closed ==> patience == 0)
    }

    /** Between batches the consumer is in step, once synced and unless the watch has ended. */
    ghost predicate Running()
      reads this, store
    {
      !failed && !closed && [] !in store.rows && (synced ==> InStep(codec, equal, store.rows, emitted))
    }

    method Send(e: Event<Row>) returns (ok: bool)
      requires !closed
      modifies this`events, this`closed, this`patience
      ensures ok == !closed && events == if ok then old(events) + [e] else old(events)
      ensures if old(patience) == 0 then closed && patience == 0 else !closed && patience == old(patience) - 1
    {
      if patience == 0 {
        closed := true;
        return false;
      }
      patience := patience - 1;
      events := events + [e];
      return true;
    }

    /** Records what the consumer holds after an event and sends it. */
    method Tell(e: Event<Row>) returns (ok: bool)
      requires Valid() && synced && !closed && Legal(equal, emitted, e)
      modifies this`emitted, this`events, this`closed, this`patience
      ensures Valid() && ok == !closed
      ensures events == if ok then old(events) + [e] else old(events)
      ensures emitted == if e.kind == Removed then old(emitted) - {e.id} else old(emitted)[e.id := e.row]
    {
      FoldSnoc(events, e);
      LegalSnoc(equal, events, e);
      hide AllLegal, Legal, Fold;
      emitted := if e.kind == Removed then emitted - {e.id} else emitted[e.id := e.row];
      ok := Send(e);
    }

    /** Tells the consumer about one row that may have changed. */
    method EmitRow(id: Id) returns (ok: bool)
      requires Valid() && synced && !closed
      modifies this`emitted, this`events, this`closed, this`patience, this`failed
      ensures Valid() && (ok <==> !closed && Decode(codec, store.rows, id).Some?) && failed == (old(failed) || Decode(codec, store.rows, id).None?)
      ensures id in store.rows && id != [] && failed && !old(failed) ==> Refuses(codec)
      ensures events == old(events) || (|events| == |old(events)| + 1 && events[..|old(events)|] == old(events) && events[|old(events)|].id == id)
      ensures ok ==> UpToDate(codec, equal, store.rows, emitted, id)
      ensures ok ==> emitted.Keys == old(emitted).Keys + {id} && forall other :: other in old(emitted) && other != id ==> emitted[other] == old(emitted)[other]
    {
      hide AllLegal, Fold, Decode;
      var row := Decode(codec, store.rows, id);
      DecodeRefused(codec, store.rows, id);
      if row == None {
        failed := true;
        return false;
      }
      if id !in emitted {
        ok := Tell(Event(Added, id, row.value));
      } else if !equal(emitted[id], row.value) {
        ok := Tell(Event(Modified, id, row.value));
      } else {
        ok := true;
      }
    }

    /** Tells the consumer about one row that is gone, if it holds it. */
    method EmitGone(id: Id, ghost todo: set<Id>, ghost affected: set<Id>) returns (ok: bool)
      requires Valid() && synced && !closed && Behind(codec, equal, store.rows, emitted, affected, todo) && id in todo
      modifies this`emitted, this`events, this`closed, this`patience
      ensures Valid() && ok == !closed
      ensures events == old(events) || (|events| == |old(events)| + 1 && events[..|old(events)|] == old(events) && events[|old(events)|].id == id)
      ensures Behind(codec, equal, store.rows, emitted, affected, todo - {id})
    {
      hide AllLegal, Fold;
      assert id !in store.rows;
      StillBehind(codec, equal, store.rows, emitted, emitted - {id}, affected, todo, todo - {id});
      hide Behind;
      if id in emitted {
        ok := Tell(Event(Removed, id, emitted[id]));
      } else {
        assert emitted - {id} == emitted;
        ok := true;
      }
    }

    /** Tells the consumer about the rows that are gone. */
    method EmitRemoved(removed: set<Id>, ghost affected: set<Id>) returns (ok: bool)
      requires Valid() && synced && !closed && Behind(codec, equal, store.rows, emitted, affected, removed)
      modifies this`emitted, this`events, this`closed, this`patience
      ensures Valid() && ok == !closed && old(events) <= events && OncePerRow(events, |old(events)|, removed)
      ensures ok ==> Behind(codec, equal, store.rows, emitted, affected, {})
    {
      hide Valid, Behind, OncePerRow;
      var todo := removed;
      NothingYet(events, removed - todo);
      while todo != {}
        invariant Valid() && synced && !closed && old(events) <= events && todo <= removed
        invariant OncePerRow(events, |old(events)|, removed - todo)
        invariant Behind(codec, equal, store.rows, emitted, affected, todo)
        decreases todo
      {
        var id :| id in todo;
        ghost var before := events;
        ok := EmitGone(id, todo, affected);
        ghost var done := removed - todo;
        OnceAfter(before, events, |old(events)|, done, id);
        todo := todo - {id};
        assert removed - todo == done + {id};
        OnceWider(events, |old(events)|, removed - todo, removed);
        if !ok { return; }
      }
      OnceWider(events, |old(events)|, removed - todo, removed);
      ok := true;
    }

    /** Tells the consumer about the rows that may have changed. */
    method EmitAffected(affected: set<Id>) returns (ok: bool)
      requires Valid() && synced && !closed && !failed && Behind(codec, equal, store.rows, emitted, affected, {})
      modifies this`emitted, this`events, this`closed, this`patience, this`failed
      ensures Valid() && ok == (!closed && !failed) && old(events) <= events && OncePerRow(events, |old(events)|, affected)
      ensures ok ==> InStep(codec, equal, store.rows, emitted)
      ensures failed ==> Refuses(codec)
    {
      hide Valid, OncePerRow;
      var todo := affected;
      NothingYet(events, affected - todo);
      while todo != {}
        invariant Valid() && synced && !closed && !failed && old(events) <= events && todo <= affected
        invariant OncePerRow(events, |old(events)|, affected - todo)
        invariant Behind(codec, equal, store.rows, emitted, todo, {})
        decreases todo
      {
        var id :| id in todo;
        ghost var held, before := emitted, events;
        ok := EmitRow(id);
        ghost var done := affected - todo;
        OnceAfter(before, events, |old(events)|, done, id);
        todo := todo - {id};
        assert affected - todo == done + {id};
        OnceWider(events, |old(events)|, affected - todo, affected);
        if !ok { return; }
        OneCaughtUp(codec, equal, store.rows, held, emitted, todo, id);
      }
      OnceWider(events, |old(events)|, affected - todo, affected);
      ok := true;
    }

    method ApplyUpdates(updates: seq<Update>) returns (ok: bool, affected: set<Id>)
      modifies this`failed, store
      ensures failed == (old(failed) || !ok)
      ensures ok <==> forall i :: 0 <= i < |updates| ==> !Unfit(updates[i])
      ensures ok ==> store.rows == AllUpdated(store.text, old(store.rows), updates)
      ensures ok ==> Touched(old(store.rows), store.rows, affected, {}) && ([] !in old(store.rows) ==> [] !in store.rows)
    {
      hide Updated, Unfit;
      affected := {};
      for i := 0 to |updates|
        invariant failed == old(failed) && Touched(old(store.rows), store.rows, affected, {})
        invariant forall k :: 0 <= k < i ==> !Unfit(updates[k])
        invariant store.rows == AllUpdated(store.text, old(store.rows), updates[..i])
        invariant [] !in old(store.rows) ==> [] !in store.rows
      {
        ghost var rows := store.rows;
        assert updates[..i + 1][..i] == updates[..i];
        var outcome := store.ApplyUpdate(updates[i]);
        match outcome
        case Failed =>
          failed := true;
          return false, {};
        case Affected(id) =>
          UpdatedOne(store.text, rows, updates[i]);
          TouchOne(old(store.rows), rows, store.rows, affected, {}, id);
          affected := affected + {id};
        case Ignored => UpdatedNone(store.text, rows, updates[i]);
        case Gone(_) =>
      }
      assert updates[..|updates|] == updates;
      ok := true;
    }

    method ApplyDeletes(deletes: seq<Target>, touched: set<Id>, ghost before: map<Id, Tree>) returns (affected: set<Id>, removed: set<Id>)
      requires Touched(before, store.rows, touched, {})
      modifies store
      ensures store.rows == AllDeleted(store.text, old(store.rows), deletes)
      ensures Touched(before, store.rows, affected, removed) && ([] !in old(store.rows) ==> [] !in store.rows)
    {
      affected, removed := touched, {};
      for i := 0 to |deletes|
        invariant store.rows == AllDeleted(store.text, old(store.rows), deletes[..i])
        invariant Touched(before, store.rows, affected, removed) && ([] !in old(store.rows) ==> [] !in store.rows)
      {
        ghost var rows := store.rows;
        assert deletes[..i + 1][..i] == deletes[..i];
        var outcome := store.ApplyDelete(deletes[i]);
        match outcome
        case Affected(id) =>
          TouchOne(before, rows, store.rows, affected, removed, id);
          affected := affected + {id};
        case Gone(ids) =>
          TouchGone(before, rows, store.rows, affected, removed, ids);
          affected, removed := affected - ids, removed + ids;
        case _ =>
      }
      assert deletes[..|deletes|] == deletes;
    }

    /** Applies one batch to the tracked rows: all its updates, then all its deletes. */
    method ApplyBatch(n: Notification) returns (ok: bool, affected: set<Id>, removed: set<Id>)
      modifies this`failed, store
      ensures failed == (old(failed) || !ok)
      ensures ok <==> !HasUnfit(n)
      ensures ok && [] !in old(store.rows) ==> [] !in store.rows
      ensures ok ==> store.rows == Applied(store.text, old(store.rows), n)
      ensures ok ==> Touched(old(store.rows), store.rows, affected, removed)
    {
      removed := {};
      ok, affected := ApplyUpdates(n.updates);
      if !ok { return; }
      affected, removed := ApplyDeletes(n.deletes, affected, old(store.rows));
    }

    /** One batch's events: the rows that are gone, then the rows that may have changed. */
    method EmitBatch(affected: set<Id>, removed: set<Id>) returns (ok: bool)
      requires Valid() && synced && !closed && !failed && affected !! removed
      requires Behind(codec, equal, store.rows, emitted, affected, removed)
      modifies this`emitted, this`events, this`closed, this`patience, this`failed
      ensures Valid() && ok == (!closed && !failed) && old(events) <= events && OncePerRow(events, |old(events)|, affected + removed)
      ensures ok ==> InStep(codec, equal, store.rows, emitted)
      ensures failed ==> Refuses(codec)
    {
      hide Valid, Behind, InStep, OncePerRow;
      ok := EmitRemoved(removed, affected);
      OnceWider(events, |old(events)|, removed, affected + removed);
      if !ok { return; }
      ghost var middle := events;
      ok := EmitAffected(affected);
      OnceJoin(middle, events, |old(events)|, removed, affected);
    }

    /** One notification: the end of the initial state, or a batch of updates and deletes. */
    method Notify(n: Notification) returns (ok: bool)
      requires Valid() && Running()
      modifies this`emitted, this`events, this`closed, this`patience, this`failed, this`synced, store
      ensures Valid() && (ok ==> Running()) && (!ok ==> failed || closed) && synced == (old(synced) || n.sync)
      ensures failed ==> HasUnfit(n) || Refuses(codec)
      ensures ok ==> store.rows == if n.sync && !old(synced) then old(store.rows) else Applied(store.text, old(store.rows), n)
      ensures old(events) <= events && forall i, j :: |old(events)| <= i < j < |events| ==> events[i].id != events[j].id
    {
      hide Behind, Touched, Decode, UpToDate, AllLegal, Refuses, HasUnfit, Applied;
      if n.sync && !synced {
        synced := true;
        NothingHeld(codec, equal, store.rows);
        ok := EmitAffected(store.rows.Keys);
        return;
      }
      ghost var before := store.rows;
      var affected, removed;
      ok, affected, removed := ApplyBatch(n);
      if !ok || !synced { return; }
      TouchedApart(before, store.rows, affected, removed);
      TouchedIsBehind(codec, equal, before, store.rows, emitted, affected, removed);
      ok := EmitBatch(affected, removed);
    }

    /** A whole subscription.  What the consumer holds is what it was told, and it is in step with the
        tracked rows after every notification once synced, as long as the watch goes on. */
    method Run(notifications: seq<Notification>) returns (ghost trace: seq<map<Id, Tree>>)
      requires Valid() && Running() && !synced && store.rows == map[]
      modifies this`emitted, this`events, this`closed, this`patience, this`failed, this`synced, store
      ensures !failed && !closed ==> (store.rows, synced) == Replayed(store.text, notifications)
      ensures Follows(store.text, Changes(notifications), trace) && trace[0] == map[]
      ensures !failed && !closed ==> store.rows == trace[|trace| - 1]
      ensures !failed && !closed ==> (synced <==> exists i :: 0 <= i < |notifications| && notifications[i].sync)
      ensures AllLegal(equal, events)
      ensures !failed && !closed && synced ==> InStep(codec, equal, store.rows, Fold(events))
      ensures !synced ==> events == []
      ensures failed ==> Refuses(codec) || exists i :: 0 <= i < |notifications| && HasUnfit(notifications[i])
      ensures closed ==> patience == 0
    {
      assert Replayed(store.text, notifications[..0]) == (map[], false);
      hide Follows, Changes, Replayed, AllLegal, InStep;
      var ok, i := true, 0;
      while ok && i < |notifications|
        invariant Valid() && (ok ==> Running()) && i <= |notifications|
        invariant !ok ==> failed || closed
        invariant ok ==> (store.rows, synced) == Replayed(store.text, notifications[..i])
        invariant failed ==> Refuses(codec) || exists k :: 0 <= k < |notifications| && HasUnfit(notifications[k])
      {
        hide Running;
        ReplayedOne(store.text, notifications, i);
        ok := Notify(notifications[i]);
        i := i + 1;
      }
      assert notifications[..|notifications|] == notifications;
      trace := ReplayFollows(store.text, notifications);
      ReplaySynced(store.text, notifications);
    }
  }

  lemma {:induction false} ReplayedOne(text: Rendering, notifications: seq<Notification>, i: nat)
    requires i < |notifications|
    ensures var (rows, synced) := Replayed(text, notifications[..i]);
      Replayed(text, notifications[..i + 1]) == if notifications[i].sync && !synced then (rows, true) else (Applied(text, rows, notifications[i]), synced)
  {
    assert notifications[..i + 1][..i] == notifications[..i];
  }

  lemma {:induction false} UpdatedNone(text: Rendering, rows: map<Id, Tree>, u: Update)
    requires !u.target.Within? || u.target.id == []
    ensures Updated(text, rows, u) == rows && !Unfit(u)
  {
  }

  lemma {:induction false} TouchOne(before: map<Id, Tree>, rows: map<Id, Tree>, rows': map<Id, Tree>, affected: set<Id>, removed: set<Id>, id: Id)
    requires Touched(before, rows, affected, removed) && id !in removed
    requires rows'.Keys == rows.Keys + {id} && forall other :: other in rows && other != id ==> rows'[other] == rows[other]
    ensures Touched(before, rows', affected + {id}, removed)
  {
  }

  lemma {:induction false} TouchGone(before: map<Id, Tree>, rows: map<Id, Tree>, rows': map<Id, Tree>, affected: set<Id>, removed: set<Id>, ids: set<Id>)
    requires Touched(before, rows, affected, removed) && ids <= rows.Keys
    requires rows' == rows - ids
    ensures Touched(before, rows', affected - ids, removed + ids)
  {
  }

  lemma {:induction false} TouchedApart(before: map<Id, Tree>, rows: map<Id, Tree>, affected: set<Id>, removed: set<Id>)
    requires Touched(before, rows, affected, removed)
    ensures affected !! removed
  {
  }

  /** At the end of the initial state every tracked row is still to be told. */
  lemma {:induction false} NothingHeld<Row>(codec: Codec<Row>, equal: (Row, Row) -> bool, rows: map<Id, Tree>)
    requires [] !in rows
    ensures Behind(codec, equal, rows, map[], rows.Keys, {})
  {
  }

  lemma {:induction false} OnceJoin<Row>(middle: seq<Event<Row>>, events: seq<Event<Row>>, start: nat, first: set<Id>, second: set<Id>)
    requires start <= |middle| && middle <= events && first !! second
    requires OncePerRow(middle, start, first) && OncePerRow(events, |middle|, second)
    ensures OncePerRow(events, start, second + first)
  {
    forall i | start <= i < |middle| ensures events[i] == middle[i] && events[i].id in first {}
  }

  lemma {:induction false} NothingYet<Row>(events: seq<Event<Row>>, ids: set<Id>)
    ensures OncePerRow(events, |events|, ids)
  {
  }

  lemma {:induction false} OnceWider<Row>(events: seq<Event<Row>>, start: nat, ids: set<Id>, more: set<Id>)
    requires OncePerRow(events, start, ids) && ids <= more
    ensures OncePerRow(events, start, more)
  {
  }

  lemma {:induction false} OnceAfter<Row>(before: seq<Event<Row>>, events: seq<Event<Row>>, start: nat, ids: set<Id>, id: Id)
    requires start <= |before| && OncePerRow(before, start, ids) && id !in ids
    requires events == before || (|events| == |before| + 1 && events[..|before|] == before && events[|before|].id == id)
    ensures OncePerRow(events, start, ids + {id})
  {
    if events != before { assert events == before + [events[|before|]]; }
  }

  lemma {:induction false} StillBehind<Row>(codec: Codec<Row>, equal: (Row, Row) -> bool, rows: map<Id, Tree>, held: map<Id, Row>, held': map<Id, Row>,
                         affected: set<Id>, removed: set<Id>, removed': set<Id>)
    requires Behind(codec, equal, rows, held, affected, removed) && removed' <= removed
    requires held'.Keys == held.Keys - (removed - removed') && forall id :: id in held' ==> held'[id] == held[id]
    ensures Behind(codec, equal, rows, held', affected, removed')
  {
    forall id | id in rows && id !in affected ensures UpToDate(codec, equal, rows, held', id) {
      assert UpToDate(codec, equal, rows, held, id);
    }
  }

  lemma {:induction false} OneCaughtUp<Row>(codec: Codec<Row>, equal: (Row, Row) -> bool, rows: map<Id, Tree>, held: map<Id, Row>, held': map<Id, Row>, todo: set<Id>, id: Id)
    requires Behind(codec, equal, rows, held, todo + {id}, {}) && id !in todo
    requires UpToDate(codec, equal, rows, held', id) && held'.Keys == held.Keys + {id}
    requires forall other :: other in held && other != id ==> held'[other] == held[other]
    ensures Behind(codec, equal, rows, held', todo, {})
  {
    forall other | other in rows && other !in todo ensures UpToDate(codec, equal, rows, held', other) {
      if other != id { assert UpToDate(codec, equal, rows, held, other); }
    }
  }
}
