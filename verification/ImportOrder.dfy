/** Ordering modules so that every import comes before its importer.

    A depth-first walk that marks the edges back to a module still being visited; without those
    edges the imports are acyclic, and the order is a topological one. */
module ImportOrder {
  import opened Common
  import opened OidResolver

  datatype Color = White | Gray | Black

  /** The other loaded module that import `i` of module `b` names. */
  function Target(mods: seq<Module>, b: nat, i: nat): (r: Option<nat>)
    requires b < |mods| && i < |mods[b].imports|
    ensures r.Some? ==> r.value < |mods| && r.value != b
  {
    match ByName(mods, mods[b].imports[i].from)
    case None => None
    case Some(t) => if t == b then None else Some(t)
  }

  predicate IsEdge(mods: seq<Module>, b: nat, i: nat, t: nat)
  {
    b < |mods| && i < |mods[b].imports| && Target(mods, b, i) == Some(t)
  }

  ghost predicate Imports(mods: seq<Module>, b: nat, t: nat)
  {
    exists i: nat :: IsEdge(mods, b, i, t)
  }

  /** Modules each importing the next. */
  ghost predicate IsRoute(mods: seq<Module>, route: seq<nat>)
  {
    route != [] && forall i :: 0 <= i < |route| - 1 ==> Imports(mods, route[i], route[i + 1])
  }

  ghost predicate Reaches(mods: seq<Module>, a: nat, b: nat)
  {
    exists route :: IsRoute(mods, route) && route[0] == a && route[|route| - 1] == b
  }

  /** An import that leads back to its importer. */
  ghost predicate ClosesCycle(mods: seq<Module>, b: nat, i: nat)
  {
    exists t: nat :: IsEdge(mods, b, i, t) && Reaches(mods, t, b)
  }

  ghost predicate Acyclic(mods: seq<Module>)
  {
    forall b: nat, i: nat :: !ClosesCycle(mods, b, i)
  }

  predicate Precedes(order: seq<nat>, a: nat, b: nat)
  {
    exists i, j :: 0 <= i < j < |order| && order[i] == a && order[j] == b
  }

  function ColorOf(color: map<nat, Color>, m: nat): Color
  {
    if m in color then color[m] else White
  }

  /** Every import of a listed module comes before it or is marked. */
  ghost predicate Ordered(mods: seq<Module>, order: seq<nat>, back: set<(nat, nat)>)
  {
    forall b: nat, i: nat, t: nat :: b in order && IsEdge(mods, b, i, t) ==> (b, i) in back || Precedes(order, t, b)
  }

  ghost predicate BackEdgesClose(mods: seq<Module>, back: set<(nat, nat)>)
  {
    forall e :: e in back ==> ClosesCycle(mods, e.0, e.1)
  }

  /** The state of the walk inside the calls of `stack`. */
  ghost predicate Walking(mods: seq<Module>, color: map<nat, Color>, order: seq<nat>, back: set<(nat, nat)>, stack: seq<nat>)
  {
    && (forall m :: m in color ==> m < |mods| && color[m] != White)
    && (forall m: nat :: ColorOf(color, m) == Gray <==> m in stack)
    && (forall m: nat :: ColorOf(color, m) == Black <==> m in order)
    && Distinct(order)
    && (stack != [] ==> IsRoute(mods, stack))
    && Ordered(mods, order, back) && BackEdgesClose(mods, back)
  }

  /** The order so far only grows at its end, and marks and blackened modules stay. */
  ghost predicate Later(order: seq<nat>, back: set<(nat, nat)>, order': seq<nat>, back': set<(nat, nat)>)
  {
    order <= order' && back <= back'
  }

  lemma PrecedesLater(order: seq<nat>, order': seq<nat>, a: nat, b: nat)
    requires order <= order' && Precedes(order, a, b)
    ensures Precedes(order', a, b)
  {
    var i, j :| 0 <= i < j < |order| && order[i] == a && order[j] == b;
    assert order'[i] == a && order'[j] == b;
  }

  lemma ColoredAtMost(mods: seq<Module>, color: map<nat, Color>, m: nat)
    requires forall k :: k in color ==> k < |mods|
    requires m < |mods| && m !in color
    ensures |color.Keys| < |mods|
  {
    BelowSize(color.Keys + {m}, |mods|);
  }

  lemma EnterKeeps(mods: seq<Module>, color: map<nat, Color>, order: seq<nat>, back: set<(nat, nat)>, stack: seq<nat>, b: nat)
    requires Walking(mods, color, order, back, stack) && b < |mods| && ColorOf(color, b) == White
    requires stack != [] ==> Imports(mods, stack[|stack| - 1], b)
    ensures Walking(mods, color[b := Gray], order, back, stack + [b])
  {
    hide Ordered, BackEdgesClose, Distinct, Imports;
    var color' := color[b := Gray];
    assert forall m: nat :: ColorOf(color', m) == if m == b then Gray else ColorOf(color, m);
  }

  lemma LeaveKeeps(mods: seq<Module>, color: map<nat, Color>, order: seq<nat>, back: set<(nat, nat)>, stack: seq<nat>, b: nat)
    requires Walking(mods, color, order, back, stack + [b]) && b < |mods| && b !in stack
    requires forall i: nat, t: nat :: IsEdge(mods, b, i, t) ==> (b, i) in back || t in order
    ensures Walking(mods, color[b := Black], order + [b], back, stack)
  {
    var color', order' := color[b := Black], order + [b];
    assert b in stack + [b] && ColorOf(color, b) == Gray;
    assert forall m: nat :: ColorOf(color', m) == if m == b then Black else ColorOf(color, m);
    forall c: nat, i: nat, t: nat | c in order' && IsEdge(mods, c, i, t) ensures (c, i) in back || Precedes(order', t, c) {
      if c == b {
        if (b, i) !in back {
          var k :| 0 <= k < |order| && order[k] == t;
          assert order'[k] == t && order'[|order|] == b;
        }
      } else if (c, i) !in back {
        PrecedesLater(order, order', t, c);
      }
    }
    if stack != [] { RoutePrefix(mods, stack, b); }
    hide Ordered, BackEdgesClose;
    forall m: nat ensures ColorOf(color', m) == Gray <==> m in stack { assert m in stack + [b] <==> m in stack || m == b; }
  }

  lemma RoutePrefix(mods: seq<Module>, stack: seq<nat>, b: nat)
    requires stack != [] && IsRoute(mods, stack + [b])
    ensures IsRoute(mods, stack)
  {
    hide Imports;
    forall i | 0 <= i < |stack| - 1 ensures Imports(mods, stack[i], stack[i + 1]) {
      assert (stack + [b])[i] == stack[i] && (stack + [b])[i + 1] == stack[i + 1];
    }
  }

  /** An import of a module still being visited closes a cycle. */
  lemma BackEdgeCloses(mods: seq<Module>, stack: seq<nat>, b: nat, i: nat, t: nat)
    requires IsRoute(mods, stack) && stack[|stack| - 1] == b && t in stack && IsEdge(mods, b, i, t)
    ensures ClosesCycle(mods, b, i)
  {
    var k :| 0 <= k < |stack| && stack[k] == t;
    var route := stack[k..];
    hide Imports;
    forall j | 0 <= j < |route| - 1 ensures Imports(mods, route[j], route[j + 1]) {
      assert route[j] == stack[k + j] && route[j + 1] == stack[k + j + 1];
    }
    assert IsRoute(mods, route);
  }

  class Orderer {
    const mods: seq<Module>
    var color: map<nat, Color>
    var order: seq<nat>
    var back: set<(nat, nat)>   // the imports marked as back edges: module and position

    constructor (mods: seq<Module>)
      ensures this.mods == mods && Valid([]) && order == []
    {
      this.mods, color, order, back := mods, map[], [], {};
    }

    ghost predicate Valid(stack: seq<nat>)
      reads this
    {
      Walking(mods, color, order, back, stack)
    }

    method Visit(b: nat, ghost stack: seq<nat>)
      requires Valid(stack) && b < |mods| && ColorOf(color, b) == White
      requires stack != [] ==> Imports(mods, stack[|stack| - 1], b)
      modifies this
      ensures Valid(stack) && b in order && Later(old(order), old(back), order, back)
      ensures |color.Keys| > |old(color).Keys| && color.Keys >= old(color).Keys
      decreases |mods| - |color.Keys|
    {
      hide Walking;
      BeforeVisit(mods, color, order, back, stack, b);
      EnterKeeps(mods, color, order, back, stack, b);
      ghost var inside := stack + [b];
      color := color[b := Gray];
      ghost var entered := color.Keys;
      var imports := mods[b].imports;
      for i := 0 to |imports|
        invariant Valid(inside) && Later(old(order), old(back), order, back) && color.Keys >= entered && |color.Keys| >= |entered|
        invariant forall j: nat, t: nat :: j < i && IsEdge(mods, b, j, t) ==> (b, j) in back || t in order
      {
        var target := Target(mods, b, i);
        if target.Some? {
          var t := target.value;
          assert IsEdge(mods, b, i, t);
          TargetColor(mods, color, order, back, inside, t);
          match ColorOf(color, t)
          case White =>
            Visit(t, inside);
          case Gray =>
            MarkKeeps(mods, color, order, back, inside, b, i, t);
            back := back + {(b, i)};
          case Black =>
        }
      }
      LeaveKeeps(mods, color, order, back, stack, b);
      color := color[b := Black];
      order := order + [b];
    }

    /** Every module is visited. */
    method Order()
      requires Valid([]) && order == []
      modifies this
      ensures IsOrder(mods, order, back)
    {
      for b := 0 to |mods|
        invariant Valid([]) && forall m: nat :: m < b ==> m in order
      {
        if ColorOf(color, b) == White {
          Visit(b, []);
        } else {
          AllBlack(mods, color, order, back, b);
        }
      }
      Finished(mods, color, order, back);
    }
  }

  lemma BeforeVisit(mods: seq<Module>, color: map<nat, Color>, order: seq<nat>, back: set<(nat, nat)>, stack: seq<nat>, b: nat)
    requires Walking(mods, color, order, back, stack) && b < |mods| && ColorOf(color, b) == White
    ensures b !in stack && b !in color && |color.Keys| < |mods|
    ensures |color[b := Gray].Keys| == |color.Keys| + 1
  {
    assert b !in color;
    ColoredAtMost(mods, color, b);
    assert color[b := Gray].Keys == color.Keys + {b};
  }

  lemma TargetColor(mods: seq<Module>, color: map<nat, Color>, order: seq<nat>, back: set<(nat, nat)>, stack: seq<nat>, t: nat)
    requires Walking(mods, color, order, back, stack)
    ensures ColorOf(color, t) == Black ==> t in order
    ensures ColorOf(color, t) == Gray ==> t in stack
  {
  }

  lemma MarkKeeps(mods: seq<Module>, color: map<nat, Color>, order: seq<nat>, back: set<(nat, nat)>, stack: seq<nat>, b: nat, i: nat, t: nat)
    requires Walking(mods, color, order, back, stack) && stack != [] && stack[|stack| - 1] == b
    requires IsEdge(mods, b, i, t) && t in stack
    ensures Walking(mods, color, order, back + {(b, i)}, stack)
  {
    BackEdgeCloses(mods, stack, b, i, t);
  }

  lemma AllBlack(mods: seq<Module>, color: map<nat, Color>, order: seq<nat>, back: set<(nat, nat)>, b: nat)
    requires Walking(mods, color, order, back, []) && ColorOf(color, b) != White
    ensures b in order
  {
    assert b !in [];
  }

  lemma Finished(mods: seq<Module>, color: map<nat, Color>, order: seq<nat>, back: set<(nat, nat)>)
    requires Walking(mods, color, order, back, []) && forall m: nat :: m < |mods| ==> m in order
    ensures IsOrder(mods, order, back)
  {
    forall m: nat | m in order ensures m < |mods| { assert ColorOf(color, m) == Black; }
  }

  // ---------------------------------------------------------------- what the order is good for

  /** The order lists every module once, after each import that is not marked, and only imports that
      close a cycle are marked. */
  ghost predicate IsOrder(mods: seq<Module>, order: seq<nat>, back: set<(nat, nat)>)
  {
    && Distinct(order) && (forall m: nat :: m < |mods| <==> m in order)
    && Ordered(mods, order, back) && BackEdgesClose(mods, back)
  }

  ghost predicate Unmarked(mods: seq<Module>, back: set<(nat, nat)>, b: nat, t: nat)
  {
    exists i: nat :: IsEdge(mods, b, i, t) && (b, i) !in back
  }

  /** Modules each importing the next by an import that is not marked. */
  ghost predicate UnmarkedRoute(mods: seq<Module>, back: set<(nat, nat)>, route: seq<nat>)
  {
    route != [] && forall i :: 0 <= i < |route| - 1 ==> Unmarked(mods, back, route[i], route[i + 1])
  }

  lemma UnmarkedPrecedes(mods: seq<Module>, order: seq<nat>, back: set<(nat, nat)>, b: nat, t: nat)
    requires IsOrder(mods, order, back) && Unmarked(mods, back, b, t)
    ensures Precedes(order, t, b)
  {
    var i: nat :| IsEdge(mods, b, i, t) && (b, i) !in back;
    assert b in order;
  }

  lemma PrecedesIsOrder(order: seq<nat>, a: nat, b: nat, c: nat)
    requires Distinct(order) && Precedes(order, a, b)
    ensures a != b && (Precedes(order, b, c) ==> Precedes(order, a, c))
  {
  }

  /** Following unmarked imports only ever leads to earlier modules, so they form no cycle. */
  lemma {:induction false} UnmarkedNeverReturns(mods: seq<Module>, order: seq<nat>, back: set<(nat, nat)>, route: seq<nat>)
    requires IsOrder(mods, order, back) && UnmarkedRoute(mods, back, route) && |route| > 1
    ensures Precedes(order, route[|route| - 1], route[0]) && route[|route| - 1] != route[0]
    decreases |route|
  {
    hide Unmarked, Precedes;
    assert Unmarked(mods, back, route[0], route[1]);
    UnmarkedPrecedes(mods, order, back, route[0], route[1]);
    if |route| > 2 {
      var rest := route[1..];
      forall i | 0 <= i < |rest| - 1 ensures Unmarked(mods, back, rest[i], rest[i + 1]) {
        assert Unmarked(mods, back, route[i + 1], route[i + 2]);
      }
      UnmarkedNeverReturns(mods, order, back, rest);
      PrecedesIsOrder(order, rest[|rest| - 1], rest[0], route[0]);
    }
    PrecedesIsOrder(order, route[|route| - 1], route[0], 0);
  }

  /** No import is marked exactly when the imports have no cycle. */
  lemma NoMarksIffAcyclic(mods: seq<Module>, order: seq<nat>, back: set<(nat, nat)>)
    requires IsOrder(mods, order, back)
    ensures back == {} <==> Acyclic(mods)
  {
    if back == {} {
      forall b: nat, i: nat ensures !ClosesCycle(mods, b, i) {
        forall t: nat, route | IsEdge(mods, b, i, t) && IsRoute(mods, route) && route[0] == t
          ensures route[|route| - 1] != b
        {
          CycleIsUnmarked(mods, order, b, i, t, route);
        }
      }
    } else {
      var e :| e in back;
      assert ClosesCycle(mods, e.0, e.1);
    }
  }

  lemma CycleIsUnmarked(mods: seq<Module>, order: seq<nat>, b: nat, i: nat, t: nat, route: seq<nat>)
    requires IsOrder(mods, order, {}) && IsEdge(mods, b, i, t) && IsRoute(mods, route) && route[0] == t
    ensures route[|route| - 1] != b
  {
    var round := [b] + route;
    forall k | 0 <= k < |round| - 1 ensures Unmarked(mods, {}, round[k], round[k + 1]) {
      if k == 0 {
        assert (b, i) !in {};
      } else {
        assert Imports(mods, route[k - 1], route[k]);
        var j: nat :| IsEdge(mods, route[k - 1], j, route[k]);
        assert (route[k - 1], j) !in {};
      }
    }
    UnmarkedNeverReturns(mods, order, {}, round);
  }
}
