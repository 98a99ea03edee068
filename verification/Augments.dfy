/** Linking tables to the tables they augment and giving them their keys.

    An augmenting table takes the key of the table it augments, which may itself augment another. */
module Augments {
  import opened Common

  /** What a table's AUGMENTS clause came to: none, one that names no table, or a table. */
  datatype Clause = NoClause | Unresolved | To(base: nat)

  datatype Table = Table(key: seq<string>, clause: Clause)

  predicate Closed(tables: seq<Table>)
  {
    forall t :: 0 <= t < |tables| && tables[t].clause.To? ==> tables[t].clause.base < |tables|
  }

  /** A table whose key is its own. */
  predicate Stops(tables: seq<Table>, t: nat)
    requires t < |tables|
  {
    !tables[t].clause.To? || tables[t].clause.base == t
  }

  /** Following `n` clauses from `t` ends at `e`. */
  predicate EndsAt(tables: seq<Table>, t: nat, n: nat, e: nat)
    requires Closed(tables)
    decreases n
  {
    t < |tables| &&
    if Stops(tables, t) then n == 0 && e == t
    else n > 0 && EndsAt(tables, tables[t].clause.base, n - 1, e)
  }

  /** Tables from `t` to `e`, each augmenting the next and the last one with a key of its own. */
  predicate IsChain(tables: seq<Table>, chain: seq<nat>, t: nat, e: nat)
  {
    && chain != [] && chain[0] == t && chain[|chain| - 1] == e
    && (forall i :: 0 <= i < |chain| - 1 ==> chain[i] < |tables| && tables[chain[i]].clause == To(chain[i + 1]) && chain[i] != chain[i + 1])
    && e < |tables| && (tables[e].clause.To? ==> tables[e].clause.base == e)
  }

  lemma ChainBegins(tables: seq<Table>, chain: seq<nat>, t: nat, e: nat)
    requires IsChain(tables, chain, t, e)
    ensures t < |tables| && if |chain| == 1 then t == e && Stops(tables, t) else !Stops(tables, t)
  {
    if |chain| > 1 { assert tables[chain[0]].clause == To(chain[1]); }
  }

  lemma {:induction false} EndsAtExactly(tables: seq<Table>, t: nat, n: nat, e: nat)
    requires Closed(tables)
    ensures EndsAt(tables, t, n, e) <==> exists chain :: |chain| == n + 1 && IsChain(tables, chain, t, e)
    decreases n
  {
    if t < |tables| && !Stops(tables, t) && n > 0 {
      var base := tables[t].clause.base;
      EndsAtExactly(tables, base, n - 1, e);
      if chain :| |chain| == n && IsChain(tables, chain, base, e) {
        assert IsChain(tables, [t] + chain, t, e);
      }
      if chain :| |chain| == n + 1 && IsChain(tables, chain, t, e) {
        assert tables[chain[0]].clause == To(chain[1]);
        assert IsChain(tables, chain[1..], base, e);
      }
    } else if t < |tables| && Stops(tables, t) && n == 0 && e == t {
      assert IsChain(tables, [t], t, e);
    } else if chain :| |chain| == n + 1 && IsChain(tables, chain, t, e) {
      ChainBegins(tables, chain, t, e);
      assert false;
    }
  }

  lemma {:induction false} EndIsUnique(tables: seq<Table>, t: nat, n: nat, e: nat, n': nat, e': nat)
    requires Closed(tables) && EndsAt(tables, t, n, e) && EndsAt(tables, t, n', e')
    ensures n == n' && e == e'
    decreases n
  {
    if !Stops(tables, t) { EndIsUnique(tables, tables[t].clause.base, n - 1, e, n' - 1, e'); }
  }

  /** Every table on a chain that ends has its own key until it is linked, and the key of the last
      table of the chain from then on. */
  ghost predicate KeysSoFar(tables: seq<Table>, key: seq<seq<string>>, linked: set<nat>, busy: set<nat>)
    requires Closed(tables)
  {
    && |key| == |tables| && busy <= linked
    && forall t: nat, n: nat, e: nat :: EndsAt(tables, t, n, e) && e < |tables| ==>
         key[t] == tables[if t in linked && t !in busy then e else t].key
  }

  /** The tables being linked lie further from the end of their chain than `t`. */
  ghost predicate Outside(tables: seq<Table>, busy: set<nat>, t: nat)
    requires Closed(tables)
  {
    forall b: nat, n: nat, e: nat :: b in busy && EndsAt(tables, b, n, e) ==> exists m: nat :: m < n && EndsAt(tables, t, m, e)
  }

  lemma {:induction false} EndInRange(tables: seq<Table>, t: nat, n: nat, e: nat)
    requires Closed(tables) && EndsAt(tables, t, n, e)
    ensures e < |tables|
    decreases n
  {
    if !Stops(tables, t) { EndInRange(tables, tables[t].clause.base, n - 1, e); }
  }

  lemma BusyNeverEnds(tables: seq<Table>, busy: set<nat>, t: nat, n: nat, e: nat)
    requires Closed(tables) && Outside(tables, busy, t) && EndsAt(tables, t, n, e)
    ensures t !in busy
  {
    forall m: nat | EndsAt(tables, t, m, e) ensures m == n { EndIsUnique(tables, t, n, e, m, e); }
  }

  lemma OutsideStep(tables: seq<Table>, busy: set<nat>, t: nat)
    requires Closed(tables) && t < |tables| && !Stops(tables, t) && Outside(tables, busy, t)
    ensures Outside(tables, busy + {t}, tables[t].clause.base)
  {
    var base := tables[t].clause.base;
    forall b: nat, n: nat, e: nat | b in busy + {t} && EndsAt(tables, b, n, e) ensures exists m: nat :: m < n && EndsAt(tables, base, m, e) {
      if b == t {
        assert EndsAt(tables, base, n - 1, e);
      } else {
        var m: nat :| m < n && EndsAt(tables, t, m, e);
        assert EndsAt(tables, base, m - 1, e);
      }
    }
  }

  class Linker {
    const tables: seq<Table>
    var key: seq<seq<string>>
    var linked: set<nat>
    var augments: map<nat, nat>   // the table each one was linked to

    constructor (tables: seq<Table>)
      requires Closed(tables)
      ensures this.tables == tables && Valid({}) && linked == {} && augments == map[]
    {
      this.tables, linked, augments := tables, {}, map[];
      key := seq(|tables|, t requires 0 <= t < |tables| => tables[t].key);
    }

    ghost predicate Valid(busy: set<nat>)
      reads this
    {
      && Closed(tables) && KeysSoFar(tables, key, linked, busy)
      && (forall t :: t in linked ==> t < |tables|)
      && (forall t :: t in augments ==> t < |tables| && tables[t].clause == To(augments[t]) && augments[t] != t)
      && (forall t :: t in linked && t !in busy && !Stops(tables, t) ==> t in augments)
    }

    method LinkAugments(t: nat, ghost busy: set<nat>)
      requires Valid(busy) && t < |tables| && Outside(tables, busy, t)
      modifies this
      ensures Valid(busy) && linked >= old(linked) + {t}
      decreases |tables| - |linked|
    {
      if t in linked { return; }
      LinkedAtMost(tables, linked, t);
      assert t !in busy;
      hide KeysSoFar, Outside;
      BeginLink(tables, key, linked, busy, t);
      linked := linked + {t};
      if !tables[t].clause.To? || tables[t].clause.base == t {
        StopLink(tables, key, linked, busy, t);
        return;
      }
      var base := tables[t].clause.base;
      OutsideStep(tables, busy, t);
      if tables[base].clause != NoClause {
        LinkAugments(base, busy + {t});
      }
      LinkKeeps(tables, key, linked, busy, t);
      augments := augments[t := base];
      key := key[t := key[base]];
    }

    /** Every table with a clause is visited, in whatever order. */
    method LinkAll(order: seq<nat>)
      requires Valid({}) && forall i :: 0 <= i < |order| ==> order[i] < |tables|
      requires forall t :: 0 <= t < |tables| && tables[t].clause != NoClause ==> t in order
      modifies this
      ensures Valid({})
      ensures forall t :: 0 <= t < |tables| && !Stops(tables, t) ==> t in augments && tables[t].clause == To(augments[t])
      ensures forall t: nat, n: nat, e: nat :: EndsAt(tables, t, n, e) && e < |tables| ==> key[t] == tables[e].key
    {
      for i := 0 to |order|
        invariant Valid({}) && forall j :: 0 <= j < i ==> order[j] in linked
      {
        LinkAugments(order[i], {});
      }
      forall t: nat, n: nat, e: nat | EndsAt(tables, t, n, e) && e < |tables| ensures key[t] == tables[e].key {
        if tables[t].clause != NoClause { assert t in order; }
      }
    }
  }

  lemma LinkedAtMost(tables: seq<Table>, linked: set<nat>, t: nat)
    requires (forall k :: k in linked ==> k < |tables|) && t < |tables| && t !in linked
    ensures |linked + {t}| == |linked| + 1 <= |tables|
  {
    BelowSize(linked + {t}, |tables|);
  }

  lemma BeginLink(tables: seq<Table>, key: seq<seq<string>>, linked: set<nat>, busy: set<nat>, t: nat)
    requires Closed(tables) && KeysSoFar(tables, key, linked, busy) && t !in linked
    ensures KeysSoFar(tables, key, linked + {t}, busy + {t})
  {
  }

  lemma StopLink(tables: seq<Table>, key: seq<seq<string>>, linked: set<nat>, busy: set<nat>, t: nat)
    requires Closed(tables) && KeysSoFar(tables, key, linked, busy + {t}) && t < |tables| && Stops(tables, t) && t !in busy
    ensures KeysSoFar(tables, key, linked, busy)
  {
  }

  lemma LinkKeeps(tables: seq<Table>, key: seq<seq<string>>, linked: set<nat>, busy: set<nat>, t: nat)
    requires Closed(tables) && KeysSoFar(tables, key, linked, busy + {t}) && t < |tables| && !Stops(tables, t) && t !in busy
    requires Outside(tables, busy + {t}, tables[t].clause.base)
    requires tables[t].clause.base in linked || tables[tables[t].clause.base].clause == NoClause
    ensures KeysSoFar(tables, key[t := key[tables[t].clause.base]], linked, busy)
  {
    var base := tables[t].clause.base;
    var key' := key[t := key[base]];
    forall s: nat, n: nat, e: nat | EndsAt(tables, s, n, e) && e < |tables|
      ensures key'[s] == tables[if s in linked && s !in busy then e else s].key
    {
      if s == t {
        assert EndsAt(tables, base, n - 1, e);
        BusyNeverEnds(tables, busy + {t}, base, n - 1, e);
      }
    }
  }
}
