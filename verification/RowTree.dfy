/** The JSON tree of one watched row: setting and deleting what a path addresses.

    The source's nested maps and arrays are changed in place; here each operation returns the
    changed tree. */
module RowTree {
  import opened Common

  datatype Json = Null | Bool(b: bool) | Number(text: string) | Str(s: string) | Arr(items: seq<Json>) | Obj(members: map<string, Json>)

  type Tree = map<string, Json>

  /** One path segment; a segment with keys addresses an entry of a list. */
  datatype Segment = Segment(name: string, keys: map<string, string>)

  /** How a value that is neither a string nor a boolean is written as JSON text. */
  type Rendering = Json -> string

  function ScalarString(text: Rendering, v: Json): string
  {
    match v
    case Str(s) => s
    case Bool(b) => if b then "true" else "false"
    case _ => text(v)
  }

  predicate EntryMatches(text: Rendering, obj: Tree, keys: map<string, string>)
  {
    forall k :: k in keys ==> k in obj && ScalarString(text, obj[k]) == keys[k]
  }

  /** The entry of a list with the given keys. */
  function KeyMembers(keys: map<string, string>): Tree
  {
    map k | k in keys :: Str(keys[k])
  }

  predicate IsEntry(text: Rendering, v: Json, keys: map<string, string>)
  {
    v.Obj? && EntryMatches(text, v.members, keys)
  }

  /** A key is compared with the text of the member: a string itself, a truth value its word, anything else
      its JSON text. */
  lemma KeyText(text: Rendering, k: string, key: string, v: Json)
    ensures IsEntry(text, Obj(map[k := v]), map[k := key]) <==>
      match v
      case Str(s) => key == s
      case Bool(b) => (b && key == ['t', 'r', 'u', 'e']) || (!b && key == ['f', 'a', 'l', 's', 'e'])
      case _ => key == text(v)
  {
    assert k in map[k := key] && map[k := v][k] == v;
  }

  /** The first entry that matches; the length when none does. */
  function EntryIndex(text: Rendering, items: seq<Json>, keys: map<string, string>): (i: nat)
    ensures i <= |items| && (forall j :: 0 <= j < i ==> !IsEntry(text, items[j], keys))
    ensures i < |items| ==> IsEntry(text, items[i], keys)
  {
    if items == [] || IsEntry(text, items[0], keys) then 0
    else
      var i := EntryIndex(text, items[1..], keys);
      assert forall j :: 0 < j < i + 1 ==> items[j] == items[1..][j - 1];
      i + 1
  }

  function Items(tree: Tree, name: string): seq<Json>
  {
    if name in tree && tree[name].Arr? then tree[name].items else []
  }

  function Child(tree: Tree, name: string): Tree
  {
    if name in tree && tree[name].Obj? then tree[name].members else map[]
  }

  /** The entry a keyed segment addresses, as found or as newly made. */
  function Entry(text: Rendering, tree: Tree, seg: Segment): Tree
  {
    var items := Items(tree, seg.name);
    var i := EntryIndex(text, items, seg.keys);
    if i < |items| then items[i].members else KeyMembers(seg.keys)
  }

  /** The tree with that entry put in its place, or appended when it is new. */
  function WithEntry(text: Rendering, tree: Tree, seg: Segment, entry: Tree): Tree
  {
    var items := Items(tree, seg.name);
    var i := EntryIndex(text, items, seg.keys);
    tree[seg.name := Arr(if i < |items| then items[i := Obj(entry)] else items + [Obj(entry)])]
  }

  /** Stores a value under a path, making the containers and list entries on the way; an entry-level
      value has to be an object and is merged into the entry. */
  function SetTreeValue(text: Rendering, tree: Tree, segs: seq<Segment>, val: Json): Option<Tree>
    requires segs != []
    decreases |segs|
  {
    var seg := segs[0];
    if |segs| == 1 && seg.keys == map[] then Some(tree[seg.name := val])
    else if seg.keys != map[] then
      var entry := Entry(text, tree, seg);
      if |segs| == 1 then
        (if val.Obj? then Some(WithEntry(text, tree, seg, entry + val.members)) else None)
      else
        match SetTreeValue(text, entry, segs[1..], val)
        case None => None
        case Some(entry') => Some(WithEntry(text, tree, seg, entry'))
    else
      match SetTreeValue(text, Child(tree, seg.name), segs[1..], val)
      case None => None
      case Some(child) => Some(tree[seg.name := Obj(child)])
  }

  /** Removes what a path addresses; nothing there, nothing changes. */
  function DeleteTreeValue(text: Rendering, tree: Tree, segs: seq<Segment>): Tree
    requires segs != []
    decreases |segs|
  {
    var seg := segs[0];
    if seg.keys != map[] then
      var items := Items(tree, seg.name);
      var i := EntryIndex(text, items, seg.keys);
      if i == |items| then tree
      else if |segs| == 1 then tree[seg.name := Arr(items[..i] + items[i + 1..])]
      else tree[seg.name := Arr(items[i := Obj(DeleteTreeValue(text, items[i].members, segs[1..]))])]
    else if |segs| == 1 then tree - {seg.name}
    else if seg.name in tree && tree[seg.name].Obj? then
      tree[seg.name := Obj(DeleteTreeValue(text, tree[seg.name].members, segs[1..]))]
    else tree
  }

  /** What a path addresses in a tree. */
  function Get(text: Rendering, tree: Tree, segs: seq<Segment>): Option<Json>
    requires segs != []
    decreases |segs|
  {
    var seg := segs[0];
    if seg.keys != map[] then
      var items := Items(tree, seg.name);
      var i := EntryIndex(text, items, seg.keys);
      if i == |items| then None
      else if |segs| == 1 then Some(items[i])
      else Get(text, items[i].members, segs[1..])
    else if |segs| == 1 then (if seg.name in tree then Some(tree[seg.name]) else None)
    else if seg.name in tree && tree[seg.name].Obj? then Get(text, tree[seg.name].members, segs[1..])
    else None
  }

  // ---------------------------------------------------------------- what the operations do

  /** The first matching entry after the `i`-th; the length when there is none. */
  function NextEntry(text: Rendering, items: seq<Json>, i: nat, keys: map<string, string>): (j: nat)
    requires i < |items|
    ensures i < j <= |items| && (forall k :: i < k < j ==> !IsEntry(text, items[k], keys))
    ensures j < |items| ==> IsEntry(text, items[j], keys)
  {
    var j := EntryIndex(text, items[i + 1..], keys);
    assert forall k :: i < k < i + 1 + j ==> items[k] == items[i + 1..][k - i - 1];
    i + 1 + j
  }

  lemma EntryFound(text: Rendering, tree: Tree, seg: Segment)
    ensures EntryMatches(text, Entry(text, tree, seg), seg.keys)
  {
  }

  /** An entry that still matches its keys is the one found again. */
  lemma EntryFoundAgain(text: Rendering, tree: Tree, seg: Segment, entry: Tree)
    requires EntryMatches(text, entry, seg.keys)
    ensures var items := Items(WithEntry(text, tree, seg, entry), seg.name);
      var i := EntryIndex(text, items, seg.keys);
      i < |items| && items[i] == Obj(entry)
  {
    var items := Items(tree, seg.name);
    var items' := Items(WithEntry(text, tree, seg, entry), seg.name);
    var i := EntryIndex(text, items, seg.keys);
    assert items'[i] == Obj(entry) && IsEntry(text, items'[i], seg.keys);
    FirstMatch(text, items', seg.keys, i);
  }

  lemma {:induction false} FirstMatch(text: Rendering, items: seq<Json>, keys: map<string, string>, i: nat)
    requires i < |items| && IsEntry(text, items[i], keys) && forall j :: 0 <= j < i ==> !IsEntry(text, items[j], keys)
    ensures EntryIndex(text, items, keys) == i
  {
    hide IsEntry;
  }

  /** A set below an entry leaves the members other than the one it goes through alone. */
  lemma {:induction false} SetLeavesOthers(text: Rendering, tree: Tree, segs: seq<Segment>, val: Json, name: string)
    requires segs != [] && SetTreeValue(text, tree, segs, val).Some? && name != segs[0].name
    ensures var t := SetTreeValue(text, tree, segs, val).value; (name in t <==> name in tree) && (name in tree ==> t[name] == tree[name])
  {
  }

  /** A set is refused exactly for a value that is not an object at the level of a list entry. */
  lemma {:induction false} SetRefusedExactly(text: Rendering, tree: Tree, segs: seq<Segment>, val: Json)
    requires segs != []
    ensures SetTreeValue(text, tree, segs, val).None? <==> segs[|segs| - 1].keys != map[] && !val.Obj?
    decreases |segs|
  {
    if |segs| > 1 {
      var seg := segs[0];
      assert segs[1..][|segs[1..]| - 1] == segs[|segs| - 1];
      SetRefusedExactly(text, if seg.keys != map[] then Entry(text, tree, seg) else Child(tree, seg.name), segs[1..], val);
    }
  }

  /** An entry that no longer matches is passed over: what is found is the next one that does. */
  lemma {:induction false} EntryPassedOver(text: Rendering, items: seq<Json>, keys: map<string, string>, v: Json)
    requires !IsEntry(text, v, keys)
    ensures var i := EntryIndex(text, items, keys);
      if i == |items| then EntryIndex(text, items + [v], keys) == |items| + 1
      else EntryIndex(text, items[i := v], keys) == NextEntry(text, items, i, keys)
  {
    hide IsEntry;
    var i := EntryIndex(text, items, keys);
    if i < |items| {
      var items', j := items[i := v], NextEntry(text, items, i, keys);
      forall k | 0 <= k < j ensures !IsEntry(text, items'[k], keys) {
        assert items'[k] == if k == i then v else items[k];
      }
      if j < |items| {
        assert items'[j] == items[j];
        FirstMatch(text, items', keys, j);
      }
    } else {
      forall k | 0 <= k < |items| + 1 ensures !IsEntry(text, (items + [v])[k], keys) {
        assert (items + [v])[k] == if k < |items| then items[k] else v;
      }
    }
  }

  /** A removed entry is passed over too. */
  lemma {:induction false} EntryRemoved(text: Rendering, items: seq<Json>, keys: map<string, string>, i: nat)
    requires i == EntryIndex(text, items, keys) < |items|
    ensures EntryIndex(text, items[..i] + items[i + 1..], keys) == NextEntry(text, items, i, keys) - 1
  {
    hide IsEntry;
    var j := NextEntry(text, items, i, keys);
    var rest := items[..i] + items[i + 1..];
    forall k | 0 <= k < j - 1 ensures !IsEntry(text, rest[k], keys) {
      assert rest[k] == if k < i then items[k] else items[k + 1];
    }
    if j < |items| {
      assert rest[j - 1] == items[j];
      FirstMatch(text, rest, keys, j - 1);
    }
  }

  // ---------------------------------------------------------------- what was set is read back

  /** What a set leaves at the end of its path: the value, or the entry it was merged into. */
  function Written(text: Rendering, tree: Tree, segs: seq<Segment>, val: Json): Json
    requires segs != []
    decreases |segs|
  {
    var seg := segs[0];
    if |segs| > 1 then Written(text, if seg.keys != map[] then Entry(text, tree, seg) else Child(tree, seg.name), segs[1..], val)
    else if seg.keys != map[] && val.Obj? then Obj(Entry(text, tree, seg) + val.members)
    else val
  }

  /** The entry a keyed first segment addresses, after the set. */
  function EntryAfter(text: Rendering, tree: Tree, segs: seq<Segment>, val: Json): Tree
    requires segs != [] && segs[0].keys != map[] && SetTreeValue(text, tree, segs, val).Some?
  {
    var entry := Entry(text, tree, segs[0]);
    if |segs| == 1 then entry + val.members else SetTreeValue(text, entry, segs[1..], val).value
  }

  /** Decided on the tree as it was: every entry on the path still has its keys afterwards, or one that
      loses them is followed by another with the same keys that holds the value already. */
  ghost predicate ReadsBack(text: Rendering, tree: Tree, segs: seq<Segment>, val: Json)
    requires segs != [] && SetTreeValue(text, tree, segs, val).Some?
    decreases |segs|
  {
    var seg := segs[0];
    if seg.keys == map[] then |segs| == 1 || ReadsBack(text, Child(tree, seg.name), segs[1..], val)
    else if EntryMatches(text, EntryAfter(text, tree, segs, val), seg.keys) then
      |segs| == 1 || ReadsBack(text, Entry(text, tree, seg), segs[1..], val)
    else
      var items := Items(tree, seg.name);
      var i := EntryIndex(text, items, seg.keys);
      i < |items| && NextEntry(text, items, i, seg.keys) < |items| && |segs| > 1
      && Get(text, items[NextEntry(text, items, i, seg.keys)].members, segs[1..]) == Some(Written(text, tree, segs, val))
  }

  lemma {:induction false} SetReplacesEntry(text: Rendering, tree: Tree, segs: seq<Segment>, val: Json)
    requires segs != [] && segs[0].keys != map[] && SetTreeValue(text, tree, segs, val).Some?
    ensures SetTreeValue(text, tree, segs, val).value == WithEntry(text, tree, segs[0], EntryAfter(text, tree, segs, val))
  {
  }

  /** What is read in place of an entry that lost its keys. */
  lemma {:induction false} ReadPastEntry(text: Rendering, tree: Tree, segs: seq<Segment>, entry': Tree)
    requires segs != [] && segs[0].keys != map[] && !EntryMatches(text, entry', segs[0].keys)
    ensures var items := Items(tree, segs[0].name); var i := EntryIndex(text, items, segs[0].keys);
      Get(text, WithEntry(text, tree, segs[0], entry'), segs) ==
      if i == |items| || NextEntry(text, items, i, segs[0].keys) == |items| then None
      else
        var next := items[NextEntry(text, items, i, segs[0].keys)];
        if |segs| == 1 then Some(next) else Get(text, next.members, segs[1..])
  {
    hide EntryIndex, NextEntry, EntryMatches;
    var items := Items(tree, segs[0].name);
    EntryPassedOver(text, items, segs[0].keys, Obj(entry'));
  }

  lemma {:induction false} ReadBackExactly(text: Rendering, tree: Tree, segs: seq<Segment>, val: Json)
    requires segs != [] && SetTreeValue(text, tree, segs, val).Some?
    ensures Get(text, SetTreeValue(text, tree, segs, val).value, segs) == Some(Written(text, tree, segs, val)) <==>
      ReadsBack(text, tree, segs, val)
    decreases |segs|
  {
    hide EntryIndex, NextEntry, EntryMatches;
    var seg := segs[0];
    if seg.keys == map[] {
      if |segs| > 1 { ReadBackExactly(text, Child(tree, seg.name), segs[1..], val); }
    } else {
      var entry' := EntryAfter(text, tree, segs, val);
      SetReplacesEntry(text, tree, segs, val);
      if EntryMatches(text, entry', seg.keys) {
        EntryFoundAgain(text, tree, seg, entry');
        if |segs| > 1 { ReadBackExactly(text, Entry(text, tree, seg), segs[1..], val); }
      } else {
        ReadPastEntry(text, tree, segs, entry');
        OnlyMatchesAreFound(text, tree, seg, entry');
      }
    }
  }

  lemma OnlyMatchesAreFound(text: Rendering, tree: Tree, seg: Segment, entry': Tree)
    requires !EntryMatches(text, entry', seg.keys)
    ensures var items := Items(tree, seg.name); var i := EntryIndex(text, items, seg.keys);
      i < |items| && NextEntry(text, items, i, seg.keys) < |items| ==> items[NextEntry(text, items, i, seg.keys)] != Obj(entry')
  {
    hide EntryMatches;
  }

  /** The last segment may name a key of the entry it is in, as a leaf; no other segment names a key of
      the entry before it, because keys are leaves. */
  predicate KeysAreLeaves(segs: seq<Segment>)
  {
    forall i :: 0 <= i < |segs| - 1 && (i < |segs| - 2 || segs[i + 1].keys != map[]) ==> segs[i + 1].name !in segs[i].keys
  }

  lemma {:induction false} KeysAreLeavesTail(segs: seq<Segment>)
    requires KeysAreLeaves(segs) && segs != []
    ensures KeysAreLeaves(segs[1..])
  {
    var rest := segs[1..];
    forall i | 0 <= i < |rest| - 1 && (i < |rest| - 2 || rest[i + 1].keys != map[]) ensures rest[i + 1].name !in rest[i].keys {
      assert segs[i + 2].name !in segs[i + 1].keys;
    }
  }

  /** The value leaves the text of every key it writes unchanged: a leaf that is a key of its entry, or
      the members of an object merged into an entry. */
  predicate LeavesKeyText(text: Rendering, segs: seq<Segment>, val: Json)
    requires segs != []
  {
    var n := |segs| - 1;
    if segs[n].keys != map[] then
      val.Obj? && forall k :: k in segs[n].keys && k in val.members ==> ScalarString(text, val.members[k]) == segs[n].keys[k]
    else n > 0 && segs[n].name in segs[n - 1].keys ==> ScalarString(text, val) == segs[n - 1].keys[segs[n].name]
  }

  /** What was set is read back exactly when the path and the value leave the text of the keys unchanged;
      so always, when the path ends at a leaf that is no key. */
  lemma {:induction false} SetThenGet(text: Rendering, tree: Tree, segs: seq<Segment>, val: Json)
    requires segs != [] && KeysAreLeaves(segs) && SetTreeValue(text, tree, segs, val).Some?
    ensures Get(text, SetTreeValue(text, tree, segs, val).value, segs) == Some(Written(text, tree, segs, val)) <==>
      LeavesKeyText(text, segs, val)
    ensures segs[|segs| - 1].keys == map[] ==> Written(text, tree, segs, val) == val
    decreases |segs|
  {
    var seg := segs[0];
    if |segs| == 1 {
      if seg.keys != map[] { EntryWritten(text, tree, segs, val); }
    } else {
      KeysAreLeavesTail(segs);
      var below := if seg.keys != map[] then Entry(text, tree, seg) else Child(tree, seg.name);
      SetThenGet(text, below, segs[1..], val);
      if seg.keys != map[] {
        if |segs| == 2 && segs[1].keys == map[] { LeafWritten(text, tree, segs, val); }
        else { EntryKept(text, tree, segs, val); }
      }
    }
  }

  /** An object merged into an entry. */
  lemma {:induction false} EntryWritten(text: Rendering, tree: Tree, segs: seq<Segment>, val: Json)
    requires |segs| == 1 && segs[0].keys != map[] && val.Obj?
    ensures Get(text, SetTreeValue(text, tree, segs, val).value, segs) == Some(Written(text, tree, segs, val)) <==>
      LeavesKeyText(text, segs, val)
  {
    var keys, entry' := segs[0].keys, EntryAfter(text, tree, segs, val);
    EntryFound(text, tree, segs[0]);
    forall k | k in keys ensures k in entry' && entry'[k] == if k in val.members then val.members[k] else Entry(text, tree, segs[0])[k] {}
    ReadBackExactly(text, tree, segs, val);
  }

  /** A leaf of an entry. */
  lemma {:induction false} LeafWritten(text: Rendering, tree: Tree, segs: seq<Segment>, val: Json)
    requires |segs| == 2 && segs[0].keys != map[] && segs[1].keys == map[] && SetTreeValue(text, tree, segs, val).Some?
    ensures Get(text, SetTreeValue(text, tree, segs, val).value, segs) == Some(val) <==> LeavesKeyText(text, segs, val)
  {
    var keys, name, entry' := segs[0].keys, segs[1].name, EntryAfter(text, tree, segs, val);
    EntryFound(text, tree, segs[0]);
    assert entry' == Entry(text, tree, segs[0])[name := val];
    assert EntryMatches(text, entry', keys) <==> LeavesKeyText(text, segs, val);
    ReadBackExactly(text, tree, segs, val);
  }

  /** A set that goes on below an entry without touching its keys. */
  lemma {:induction false} EntryKept(text: Rendering, tree: Tree, segs: seq<Segment>, val: Json)
    requires |segs| > 1 && segs[0].keys != map[] && segs[1].name !in segs[0].keys && SetTreeValue(text, tree, segs, val).Some?
    ensures var entry := Entry(text, tree, segs[0]);
      Get(text, SetTreeValue(text, tree, segs, val).value, segs) == Get(text, SetTreeValue(text, entry, segs[1..], val).value, segs[1..])
  {
    var entry, entry' := Entry(text, tree, segs[0]), EntryAfter(text, tree, segs, val);
    EntryFound(text, tree, segs[0]);
    forall k | k in segs[0].keys ensures k in entry' && entry'[k] == entry[k] {
      SetLeavesOthers(text, entry, segs[1..], val, k);
    }
    EntryFoundAgain(text, tree, segs[0], entry');
  }

  /** A leaf that changes the key of the entry it is in is lost, in every tree. */
  lemma {:induction false} RenamedKeyIsLost(text: Rendering, tree: Tree, segs: seq<Segment>, val: Json)
    requires |segs| > 1 && KeysAreLeaves(segs)
    requires var leaf, keys := segs[|segs| - 1], segs[|segs| - 2].keys;
      leaf.keys == map[] && leaf.name in keys && ScalarString(text, val) != keys[leaf.name]
    ensures SetTreeValue(text, tree, segs, val).Some?
    ensures Get(text, SetTreeValue(text, tree, segs, val).value, segs) != Some(val)
  {
    SetRefusedExactly(text, tree, segs, val);
    SetThenGet(text, tree, segs, val);
  }

  // ---------------------------------------------------------------- what was deleted is gone

  /** Deleting what is not there changes nothing. */
  lemma {:induction false} DeleteMissing(text: Rendering, tree: Tree, segs: seq<Segment>)
    requires segs != [] && Get(text, tree, segs) == None
    ensures DeleteTreeValue(text, tree, segs) == tree
    decreases |segs|
  {
    var seg := segs[0];
    if seg.keys != map[] {
      var items := Items(tree, seg.name);
      var i := EntryIndex(text, items, seg.keys);
      if i < |items| && |segs| > 1 {
        DeleteMissing(text, items[i].members, segs[1..]);
        assert items[i := items[i]] == items;
      }
    } else if |segs| > 1 && seg.name in tree && tree[seg.name].Obj? {
      DeleteMissing(text, tree[seg.name].members, segs[1..]);
    }
  }

  /** Decided on the tree as it was: the entry that goes, or loses its keys on the way, is followed by none
      with the same keys that has something at the path. */
  ghost predicate Goes(text: Rendering, tree: Tree, segs: seq<Segment>)
    requires segs != []
    decreases |segs|
  {
    var seg := segs[0];
    if seg.keys == map[] then
      |segs| > 1 && seg.name in tree && tree[seg.name].Obj? ==> Goes(text, tree[seg.name].members, segs[1..])
    else
      var items := Items(tree, seg.name);
      var i := EntryIndex(text, items, seg.keys);
      i < |items| ==>
        var next := NextEntry(text, items, i, seg.keys);
        if |segs| == 1 then next == |items|
        else if EntryMatches(text, DeleteTreeValue(text, items[i].members, segs[1..]), seg.keys) then Goes(text, items[i].members, segs[1..])
        else next < |items| ==> Get(text, items[next].members, segs[1..]) == None
  }

  lemma {:induction false} DeletedExactly(text: Rendering, tree: Tree, segs: seq<Segment>)
    requires segs != []
    ensures Get(text, DeleteTreeValue(text, tree, segs), segs) == None <==> Goes(text, tree, segs)
    decreases |segs|
  {
    hide EntryIndex, NextEntry, EntryMatches;
    var seg := segs[0];
    if seg.keys == map[] {
      if |segs| > 1 && seg.name in tree && tree[seg.name].Obj? { DeletedExactly(text, tree[seg.name].members, segs[1..]); }
    } else {
      var items := Items(tree, seg.name);
      var i := EntryIndex(text, items, seg.keys);
      if i < |items| {
        if |segs| == 1 {
          EntryRemoved(text, items, seg.keys, i);
        } else {
          var entry := DeleteTreeValue(text, items[i].members, segs[1..]);
          DeletedExactly(text, items[i].members, segs[1..]);
          if EntryMatches(text, entry, seg.keys) { FirstAgain(text, items, seg.keys, Obj(entry)); }
          else { EntryPassedOver(text, items, seg.keys, Obj(entry)); AfterPassed(text, items, seg.keys, i, Obj(entry)); }
        }
      }
    }
  }

  lemma {:induction false} FirstAgain(text: Rendering, items: seq<Json>, keys: map<string, string>, v: Json)
    requires EntryIndex(text, items, keys) < |items| && IsEntry(text, v, keys)
    ensures EntryIndex(text, items[EntryIndex(text, items, keys) := v], keys) == EntryIndex(text, items, keys)
  {
    FirstMatch(text, items[EntryIndex(text, items, keys) := v], keys, EntryIndex(text, items, keys));
  }

  lemma {:induction false} AfterPassed(text: Rendering, items: seq<Json>, keys: map<string, string>, i: nat, v: Json)
    requires i < |items|
    ensures var next := NextEntry(text, items, i, keys); i < next <= |items| && (next < |items| ==> items[i := v][next] == items[next])
  {
    hide EntryMatches;
  }

  /** The deletion takes something away from the keys of an entry: the entry itself, or a key leaf. */
  predicate TouchesKeys(segs: seq<Segment>)
    requires segs != []
  {
    var n := |segs| - 1;
    segs[n].keys != map[] || (n > 0 && segs[n].name in segs[n - 1].keys)
  }

  /** The entry at the end of the path, or around the leaf there, is followed by one with the same keys. */
  predicate Twice(text: Rendering, tree: Tree, segs: seq<Segment>)
    requires segs != []
    decreases |segs|
  {
    var seg := segs[0];
    if seg.keys == map[] then |segs| > 1 && seg.name in tree && tree[seg.name].Obj? && Twice(text, tree[seg.name].members, segs[1..])
    else
      var items := Items(tree, seg.name);
      var i := EntryIndex(text, items, seg.keys);
      i < |items| && if |segs| == 1 || (|segs| == 2 && segs[1].keys == map[]) then NextEntry(text, items, i, seg.keys) < |items|
                     else Twice(text, items[i].members, segs[1..])
  }

  /** After a deletion nothing is read where it was, except when an entry went, or lost a key, and another
      one with the same keys follows it. */
  lemma {:induction false} DeleteThenGet(text: Rendering, tree: Tree, segs: seq<Segment>)
    requires segs != [] && KeysAreLeaves(segs)
    ensures Get(text, DeleteTreeValue(text, tree, segs), segs) == None <==> !(TouchesKeys(segs) && Twice(text, tree, segs))
    decreases |segs|
  {
    var seg := segs[0];
    if seg.keys != map[] {
      var items := Items(tree, seg.name);
      var i := EntryIndex(text, items, seg.keys);
      if i < |items| {
        if |segs| == 1 { EntryRemoved(text, items, seg.keys, i); }
        else if |segs| == 2 && segs[1].keys == map[] { DeleteLeaf(text, tree, segs); }
        else { DeleteBelow(text, tree, segs); KeysAreLeavesTail(segs); DeleteThenGet(text, items[i].members, segs[1..]); }
      }
    } else if |segs| > 1 {
      KeysAreLeavesTail(segs);
      if seg.name in tree && tree[seg.name].Obj? { DeleteThenGet(text, tree[seg.name].members, segs[1..]); }
    }
  }

  /** A leaf of an entry. */
  lemma {:induction false} DeleteLeaf(text: Rendering, tree: Tree, segs: seq<Segment>)
    requires |segs| == 2 && segs[0].keys != map[] && segs[1].keys == map[]
    requires EntryIndex(text, Items(tree, segs[0].name), segs[0].keys) < |Items(tree, segs[0].name)|
    ensures Get(text, DeleteTreeValue(text, tree, segs), segs) == None <==> !(TouchesKeys(segs) && Twice(text, tree, segs))
  {
    var items, keys, name := Items(tree, segs[0].name), segs[0].keys, segs[1].name;
    var i := EntryIndex(text, items, keys);
    var entry := items[i].members - {name};
    assert segs[1..] == [segs[1]];
    assert DeleteTreeValue(text, tree, segs) == tree[segs[0].name := Arr(items[i := Obj(entry)])];
    if name in keys {
      assert !IsEntry(text, Obj(entry), keys);
      EntryPassedOver(text, items, keys, Obj(entry));
    } else {
      FirstMatch(text, items[i := Obj(entry)], keys, i);
    }
  }

  /** A deletion further below an entry, which leaves its keys alone. */
  lemma {:induction false} DeleteBelow(text: Rendering, tree: Tree, segs: seq<Segment>)
    requires |segs| > 1 && segs[0].keys != map[] && segs[1].name !in segs[0].keys
    requires EntryIndex(text, Items(tree, segs[0].name), segs[0].keys) < |Items(tree, segs[0].name)|
    ensures var items := Items(tree, segs[0].name); var entry := items[EntryIndex(text, items, segs[0].keys)].members;
      Get(text, DeleteTreeValue(text, tree, segs), segs) == Get(text, DeleteTreeValue(text, entry, segs[1..]), segs[1..])
  {
    var items, keys := Items(tree, segs[0].name), segs[0].keys;
    var i := EntryIndex(text, items, keys);
    var entry := DeleteTreeValue(text, items[i].members, segs[1..]);
    DeleteLeavesOthers(text, items[i].members, segs[1..]);
    assert EntryMatches(text, entry, keys);
    FirstMatch(text, items[i := Obj(entry)], keys, i);
  }

  lemma {:induction false} DeleteLeavesOthers(text: Rendering, tree: Tree, segs: seq<Segment>)
    requires segs != []
    ensures var t := DeleteTreeValue(text, tree, segs);
      forall name :: name != segs[0].name ==> (name in t <==> name in tree) && (name in tree ==> t[name] == tree[name])
  {
  }

  // ---------------------------------------------------------------- everything else stays as it was

  /** The segments cannot address the same member or list entry. */
  predicate Apart(a: Segment, b: Segment)
  {
    a.name != b.name || exists k :: k in a.keys && k in b.keys && a.keys[k] != b.keys[k]
  }

  /** The paths go the same way up to where they come apart. */
  predicate Diverge(p: seq<Segment>, q: seq<Segment>)
    decreases |p|
  {
    p != [] && q != [] && (Apart(p[0], q[0]) || (p[0] == q[0] && Diverge(p[1..], q[1..])))
  }

  /** Two keyed segments of one name are apart exactly when no list entry matches both. */
  lemma {:induction false} ApartExactly(text: Rendering, a: Segment, b: Segment)
    requires a.name == b.name
    ensures Apart(a, b) <==> !exists v :: IsEntry(text, v, a.keys) && IsEntry(text, v, b.keys)
  {
    if !Apart(a, b) {
      var v := Obj(KeyMembers(a.keys + b.keys));
      assert IsEntry(text, v, a.keys) && IsEntry(text, v, b.keys);
    }
  }

  /** Two paths diverge exactly when they agree up to some segment and are apart there. */
  lemma {:induction false} DivergeExactly(p: seq<Segment>, q: seq<Segment>)
    ensures Diverge(p, q) <==> exists n: nat :: n < |p| && n < |q| && p[..n] == q[..n] && Apart(p[n], q[n])
    decreases |p|
  {
    if p != [] && q != [] && p[0] == q[0] {
      DivergeExactly(p[1..], q[1..]);
      if n: nat :| n < |p[1..]| && n < |q[1..]| && p[1..][..n] == q[1..][..n] && Apart(p[1..][n], q[1..][n]) {
        assert p[..n + 1] == [p[0]] + p[1..][..n] && q[..n + 1] == [q[0]] + q[1..][..n];
        assert Apart(p[n + 1], q[n + 1]);
      }
      if n: nat :| n < |p| && n < |q| && p[..n] == q[..n] && Apart(p[n], q[n]) && n > 0 {
        assert p[1..][..n - 1] == p[..n][1..] && q[1..][..n - 1] == q[..n][1..];
        assert Apart(p[1..][n - 1], q[1..][n - 1]);
      }
    } else if p != [] && q != [] && Apart(p[0], q[0]) {
      assert p[..0] == q[..0];
    }
  }

  /** No segment names a key of the entry before it. */
  predicate SparesKeys(segs: seq<Segment>)
  {
    forall i :: 0 <= i < |segs| - 1 ==> segs[i + 1].name !in segs[i].keys
  }

  lemma {:induction false} SparesKeysTail(segs: seq<Segment>)
    requires SparesKeys(segs) && segs != []
    ensures SparesKeys(segs[1..])
  {
    forall i | 0 <= i < |segs[1..]| - 1 ensures segs[1..][i + 1].name !in segs[1..][i].keys {
      assert segs[i + 2].name !in segs[i + 1].keys;
    }
  }

  /** What is read depends on the first member of the path alone. */
  lemma {:induction false} GetDepends(text: Rendering, a: Tree, b: Tree, q: seq<Segment>)
    requires q != [] && (q[0].name in a <==> q[0].name in b) && (q[0].name in a ==> a[q[0].name] == b[q[0].name])
    ensures Get(text, a, q) == Get(text, b, q)
  {
    assert Items(a, q[0].name) == Items(b, q[0].name);
  }

  /** An entry with one set of keys does not match another that is apart from it. */
  lemma ApartMatches(text: Rendering, v: Json, a: Segment, b: Segment)
    requires Apart(a, b) && a.name == b.name && IsEntry(text, v, a.keys)
    ensures !IsEntry(text, v, b.keys)
  {
  }

  /** What an entry's keys find does not depend on entries that do not match them. */
  lemma {:induction false} OtherEntryChanged(text: Rendering, items: seq<Json>, keys: map<string, string>, i: nat, v: Json)
    requires i < |items| && !IsEntry(text, items[i], keys) && !IsEntry(text, v, keys)
    ensures var e := EntryIndex(text, items, keys);
      EntryIndex(text, items[i := v], keys) == e && (e < |items| ==> items[i := v][e] == items[e])
  {
    hide IsEntry;
    var e, items' := EntryIndex(text, items, keys), items[i := v];
    forall k | 0 <= k < e ensures !IsEntry(text, items'[k], keys) { assert items'[k] == if k == i then v else items[k]; }
    if e < |items| { FirstMatch(text, items', keys, e); }
  }

  lemma {:induction false} OtherEntryAdded(text: Rendering, items: seq<Json>, keys: map<string, string>, v: Json)
    requires !IsEntry(text, v, keys)
    ensures var e := EntryIndex(text, items, keys);
      EntryIndex(text, items + [v], keys) == if e < |items| then e else e + 1
  {
    hide IsEntry;
    var e, items' := EntryIndex(text, items, keys), items + [v];
    forall k | 0 <= k < |items'| && k <= |items| ensures items'[k] == if k < |items| then items[k] else v {}
    if e < |items| { FirstMatch(text, items', keys, e); }
  }

  lemma {:induction false} OtherEntryGone(text: Rendering, items: seq<Json>, keys: map<string, string>, i: nat)
    requires i < |items| && !IsEntry(text, items[i], keys)
    ensures var e, rest := EntryIndex(text, items, keys), items[..i] + items[i + 1..];
      EntryIndex(text, rest, keys) == (if e < i then e else e - 1) && (e < |items| ==> rest[if e < i then e else e - 1] == items[e])
  {
    hide IsEntry;
    var e, rest := EntryIndex(text, items, keys), items[..i] + items[i + 1..];
    forall k | 0 <= k < |rest| ensures rest[k] == items[if k < i then k else k + 1] {}
    assert e != i;
    if e < |items| { FirstMatch(text, rest, keys, if e < i then e else e - 1); }
  }

  /** A deletion changes nothing that is read at a path apart from it. */
  lemma {:induction false} DeleteFrame(text: Rendering, tree: Tree, segs: seq<Segment>, q: seq<Segment>)
    requires Diverge(segs, q) && SparesKeys(segs)
    ensures Get(text, DeleteTreeValue(text, tree, segs), q) == Get(text, tree, q)
    decreases |segs|
  {
    var seg := segs[0];
    if seg.name != q[0].name {
      DeleteLeavesOthers(text, tree, segs);
      GetDepends(text, tree, DeleteTreeValue(text, tree, segs), q);
    } else if seg.keys == map[] {
      if |segs| > 1 && seg.name in tree && tree[seg.name].Obj? {
        SparesKeysTail(segs);
        DeleteFrame(text, tree[seg.name].members, segs[1..], q[1..]);
      }
    } else if EntryIndex(text, Items(tree, seg.name), seg.keys) < |Items(tree, seg.name)| {
      if Apart(seg, q[0]) { DeleteOtherEntry(text, tree, segs, q); } else { DeleteInEntry(text, tree, segs, q); }
    }
  }

  /** What a path reads in a list. */
  function GetIn(text: Rendering, items: seq<Json>, q: seq<Segment>): Option<Json>
    requires q != [] && q[0].keys != map[]
  {
    var e := EntryIndex(text, items, q[0].keys);
    if e == |items| then None else if |q| == 1 then Some(items[e]) else Get(text, items[e].members, q[1..])
  }

  lemma {:induction false} GetIsIn(text: Rendering, tree: Tree, q: seq<Segment>)
    requires q != [] && q[0].keys != map[]
    ensures Get(text, tree, q) == GetIn(text, Items(tree, q[0].name), q)
  {
  }

  lemma {:induction false} DeleteOtherEntry(text: Rendering, tree: Tree, segs: seq<Segment>, q: seq<Segment>)
    requires segs != [] && q != [] && Apart(segs[0], q[0]) && segs[0].name == q[0].name && segs[0].keys != map[] && SparesKeys(segs)
    requires EntryIndex(text, Items(tree, segs[0].name), segs[0].keys) < |Items(tree, segs[0].name)|
    ensures Get(text, DeleteTreeValue(text, tree, segs), q) == Get(text, tree, q)
  {
    var items, i := Items(tree, q[0].name), EntryIndex(text, Items(tree, q[0].name), segs[0].keys);
    var after := DeleteTreeValue(text, tree, segs);
    ApartMatches(text, items[i], segs[0], q[0]);
    GetIsIn(text, tree, q);
    GetIsIn(text, after, q);
    if |segs| == 1 {
      assert Items(after, q[0].name) == items[..i] + items[i + 1..];
      OtherEntryGone(text, items, q[0].keys, i);
    } else {
      var entry := DeleteTreeValue(text, items[i].members, segs[1..]);
      assert Items(after, q[0].name) == items[i := Obj(entry)];
      StillAnEntry(text, items[i].members, segs);
      ApartMatches(text, Obj(entry), segs[0], q[0]);
      OtherEntryChanged(text, items, q[0].keys, i, Obj(entry));
    }
    hide EntryIndex, IsEntry, Get, DeleteTreeValue, SparesKeys, Apart;
  }

  lemma {:induction false} StillAnEntry(text: Rendering, entry: Tree, segs: seq<Segment>)
    requires |segs| > 1 && SparesKeys(segs) && IsEntry(text, Obj(entry), segs[0].keys)
    ensures IsEntry(text, Obj(DeleteTreeValue(text, entry, segs[1..])), segs[0].keys)
  {
    DeleteLeavesOthers(text, entry, segs[1..]);
    hide DeleteTreeValue;
  }

  lemma {:induction false} DeleteInEntry(text: Rendering, tree: Tree, segs: seq<Segment>, q: seq<Segment>)
    requires Diverge(segs, q) && !Apart(segs[0], q[0]) && segs[0].keys != map[] && SparesKeys(segs)
    requires EntryIndex(text, Items(tree, segs[0].name), segs[0].keys) < |Items(tree, segs[0].name)|
    ensures Get(text, DeleteTreeValue(text, tree, segs), q) == Get(text, tree, q)
    decreases |segs|, 0
  {
    var items, keys := Items(tree, segs[0].name), segs[0].keys;
    var i := EntryIndex(text, items, keys);
    SparesKeysTail(segs);
    DeleteFrame(text, items[i].members, segs[1..], q[1..]);
    var entry := DeleteTreeValue(text, items[i].members, segs[1..]);
    DeleteLeavesOthers(text, items[i].members, segs[1..]);
    assert IsEntry(text, Obj(entry), keys);
    FirstAgain(text, items, keys, Obj(entry));
    hide EntryIndex, IsEntry;
  }

  /** A set changes nothing that could be read at a path apart from it, as long as it leaves the keys of the
      entries it goes through alone. */
  lemma {:induction false} SetFrame(text: Rendering, tree: Tree, segs: seq<Segment>, val: Json, q: seq<Segment>)
    requires Diverge(segs, q) && SparesKeys(segs) && LeavesKeyText(text, segs, val) && SetTreeValue(text, tree, segs, val).Some?
    requires Get(text, tree, q).Some?
    ensures Get(text, SetTreeValue(text, tree, segs, val).value, q) == Get(text, tree, q)
    decreases |segs|
  {
    var seg := segs[0];
    if seg.name != q[0].name {
      SetLeavesOthers(text, tree, segs, val, q[0].name);
      GetDepends(text, tree, SetTreeValue(text, tree, segs, val).value, q);
    } else if seg.keys == map[] {
      if |segs| > 1 {
        SparesKeysTail(segs);
        assert segs[1..][|segs| - 2] == segs[|segs| - 1];
        SetFrame(text, Child(tree, seg.name), segs[1..], val, q[1..]);
      }
    } else {
      EntryStillMatches(text, tree, segs, val);
      if Apart(seg, q[0]) { SetOtherEntry(text, tree, segs, val, q); } else { SetInEntry(text, tree, segs, val, q); }
    }
  }

  lemma {:induction false} EntryStillMatches(text: Rendering, tree: Tree, segs: seq<Segment>, val: Json)
    requires segs != [] && segs[0].keys != map[] && SparesKeys(segs) && LeavesKeyText(text, segs, val) && SetTreeValue(text, tree, segs, val).Some?
    ensures EntryMatches(text, EntryAfter(text, tree, segs, val), segs[0].keys)
  {
    var keys, entry, entry' := segs[0].keys, Entry(text, tree, segs[0]), EntryAfter(text, tree, segs, val);
    EntryFound(text, tree, segs[0]);
    if |segs| > 1 {
      forall k | k in keys ensures k in entry' && entry'[k] == entry[k] { SetLeavesOthers(text, entry, segs[1..], val, k); }
    }
  }

  lemma {:induction false} SetOtherEntry(text: Rendering, tree: Tree, segs: seq<Segment>, val: Json, q: seq<Segment>)
    requires segs != [] && q != [] && Apart(segs[0], q[0]) && segs[0].name == q[0].name && segs[0].keys != map[]
    requires SetTreeValue(text, tree, segs, val).Some? && EntryMatches(text, EntryAfter(text, tree, segs, val), segs[0].keys)
    ensures Get(text, tree, q).Some? ==> Get(text, SetTreeValue(text, tree, segs, val).value, q) == Get(text, tree, q)
  {
    var items, keys := Items(tree, segs[0].name), segs[0].keys;
    var i, v := EntryIndex(text, items, keys), Obj(EntryAfter(text, tree, segs, val));
    SetReplacesEntry(text, tree, segs, val);
    ApartMatches(text, v, segs[0], q[0]);
    if i < |items| {
      ApartMatches(text, items[i], segs[0], q[0]);
      OtherEntryChanged(text, items, q[0].keys, i, v);
    } else {
      OtherEntryAdded(text, items, q[0].keys, v);
    }
    hide EntryIndex, IsEntry, SetTreeValue;
  }

  lemma {:induction false} SetInEntry(text: Rendering, tree: Tree, segs: seq<Segment>, val: Json, q: seq<Segment>)
    requires Diverge(segs, q) && !Apart(segs[0], q[0]) && segs[0].keys != map[]
    requires SparesKeys(segs) && LeavesKeyText(text, segs, val) && SetTreeValue(text, tree, segs, val).Some?
    requires EntryMatches(text, EntryAfter(text, tree, segs, val), segs[0].keys) && Get(text, tree, q).Some?
    ensures Get(text, SetTreeValue(text, tree, segs, val).value, q) == Get(text, tree, q)
    decreases |segs|, 0
  {
    SparesKeysTail(segs);
    assert segs[1..][|segs| - 2] == segs[|segs| - 1];
    if |segs| > 2 { assert segs[1..][|segs| - 3] == segs[|segs| - 2]; }
    SetFrame(text, Entry(text, tree, segs[0]), segs[1..], val, q[1..]);
    SetReplacesEntry(text, tree, segs, val);
    EntryFoundAgain(text, tree, segs[0], EntryAfter(text, tree, segs, val));
    hide EntryIndex, IsEntry;
  }
}
