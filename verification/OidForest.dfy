/** Registering resolved declarations by identifier and linking them into a forest.

    One identifier is one node: contested ones go to the strongest claim.  A node hangs below its
    nearest registered ancestor, whatever arcs nothing names lie between. */
module OidForest {
  import opened Oids
  import opened Common

  datatype Kind =
    | Unknown | NamingNode | Scalar | Table | Row | Column | Notification | Group | Compliance | Capabilities

  /** A declaration in the order the modules were gathered in; the empty identifier is an unresolved one. */
  datatype Node = Node(oid: Oid, kind: Kind)

  const MaxOidLength: nat := 128

  predicate Resolvable(nodes: seq<Node>)
  {
    forall n :: 0 <= n < |nodes| ==> |nodes[n].oid| <= MaxOidLength
  }

  // ---------------------------------------------------------------- contested identifiers

  function ClaimStrength(k: Kind): nat
  {
    match k
    case Unknown => 0
    case NamingNode => 1
    case _ => 2
  }

  /** `w` is the first of the strongest claimants of its identifier among the first `upto` nodes. */
  predicate Wins(nodes: seq<Node>, w: nat, upto: nat)
    requires upto <= |nodes|
  {
    && w < upto
    && forall v :: 0 <= v < upto && nodes[v].oid == nodes[w].oid ==>
         ClaimStrength(nodes[v].kind) <= ClaimStrength(nodes[w].kind)
         && (v < w ==> ClaimStrength(nodes[v].kind) < ClaimStrength(nodes[w].kind))
  }

  /** What the winner is, by kind: with an object among the claimants (anything but a bare registration or an
      unknown) it is the first object; otherwise the first bare registration, if there is one; otherwise the
      first claimant of all. */
  lemma WinnerByKind(nodes: seq<Node>, w: nat, v: nat, upto: nat)
    requires upto <= |nodes| && Wins(nodes, w, upto) && v < upto && nodes[v].oid == nodes[w].oid
    ensures !nodes[v].kind.Unknown? && !nodes[v].kind.NamingNode? ==> !nodes[w].kind.Unknown? && !nodes[w].kind.NamingNode? && w <= v
    ensures nodes[v].kind.NamingNode? ==> !nodes[w].kind.Unknown? && (nodes[w].kind.NamingNode? ==> w <= v)
    ensures nodes[v].kind.Unknown? && nodes[w].kind.Unknown? ==> w <= v
  {
  }

  /** The register after the first `upto` nodes: every identifier claimed, each with its winner. */
  ghost predicate Registers(nodes: seq<Node>, byOid: map<Oid, nat>, upto: nat)
    requires upto <= |nodes|
  {
    && (forall n :: 0 <= n < upto && nodes[n].oid != [] ==> nodes[n].oid in byOid)
    && (forall o :: o in byOid ==> o != [] && byOid[o] < upto && nodes[byOid[o]].oid == o && Wins(nodes, byOid[o], upto))
  }

  // ---------------------------------------------------------------- order and ancestors

  predicate Indices(nodes: seq<Node>, list: seq<nat>)
  {
    forall i :: 0 <= i < |list| ==> list[i] < |nodes|
  }

  predicate SortedByOid(nodes: seq<Node>, list: seq<nat>)
  {
    && Indices(nodes, list)
    && forall i, j :: 0 <= i < j < |list| ==> AtMost(nodes[list[i]].oid, nodes[list[j]].oid)
  }

  /** Inserting behind everything at most as large keeps equal elements in order. */
  function Insert(nodes: seq<Node>, list: seq<nat>, n: nat): (r: seq<nat>)
    requires SortedByOid(nodes, list) && n < |nodes|
    ensures multiset(r) == multiset(list) + multiset{n}
    ensures SortedByOid(nodes, r)
  {
    if list == [] then [n]
    else if AtMost(nodes[list[0]].oid, nodes[n].oid) then
      var rest := Insert(nodes, list[1..], n);
      assert list == [list[0]] + list[1..];
      HeadIsLeast(nodes, list[0], rest, list[1..], n);
      [list[0]] + rest
    else
      LessTotal(nodes[list[0]].oid, nodes[n].oid);
      InsertFirst(nodes, list, n);
      [n] + list
  }

  lemma HeadIsLeast(nodes: seq<Node>, head: nat, rest: seq<nat>, tail: seq<nat>, n: nat)
    requires n < |nodes| && head < |nodes| && SortedByOid(nodes, [head] + tail) && SortedByOid(nodes, rest)
    requires AtMost(nodes[head].oid, nodes[n].oid) && multiset(rest) == multiset(tail) + multiset{n}
    ensures SortedByOid(nodes, [head] + rest)
  {
    var all := [head] + tail;
    forall i | 0 <= i < |rest| ensures AtMost(nodes[head].oid, nodes[rest[i]].oid) {
      assert rest[i] in multiset(tail) + multiset{n};
      if rest[i] != n {
        var k :| 0 <= k < |tail| && tail[k] == rest[i];
        assert all[k + 1] == rest[i] && all[0] == head;
      }
    }
  }

  lemma InsertFirst(nodes: seq<Node>, list: seq<nat>, n: nat)
    requires SortedByOid(nodes, list) && n < |nodes| && list != [] && Less(nodes[n].oid, nodes[list[0]].oid)
    ensures SortedByOid(nodes, [n] + list)
  {
    forall i | 0 <= i < |list| ensures AtMost(nodes[n].oid, nodes[list[i]].oid) {
      AtMostTransitive(nodes[n].oid, nodes[list[0]].oid, nodes[list[i]].oid);
    }
  }

  /** The stable sort by identifier. */
  function SortByOid(nodes: seq<Node>, list: seq<nat>): (r: seq<nat>)
    requires Indices(nodes, list)
    ensures multiset(r) == multiset(list) && SortedByOid(nodes, r)
  {
    if list == [] then []
    else
      assert list == list[..|list| - 1] + [list[|list| - 1]];
      Insert(nodes, SortByOid(nodes, list[..|list| - 1]), list[|list| - 1])
  }

  /** The nodes that have an identifier, in gathered order. */
  function Claimants(nodes: seq<Node>, upto: nat): (r: seq<nat>)
    requires upto <= |nodes|
    ensures Indices(nodes, r)
  {
    if upto == 0 then []
    else if nodes[upto - 1].oid != [] then Claimants(nodes, upto - 1) + [upto - 1]
    else Claimants(nodes, upto - 1)
  }

  lemma {:induction false} ClaimantsAre(nodes: seq<Node>, upto: nat)
    requires upto <= |nodes|
    ensures forall n: nat :: n in Claimants(nodes, upto) <==> n < upto && nodes[n].oid != []
    ensures forall n :: multiset(Claimants(nodes, upto))[n] <= 1
  {
    if upto > 0 { ClaimantsAre(nodes, upto - 1); }
  }

  /** The nearest registered proper prefix, by its node. */
  function Nearest(byOid: map<Oid, nat>, o: Oid): Option<nat>
    decreases |o|
  {
    if |o| <= 1 then None
    else
      var above := o[..|o| - 1];
      if above in byOid then Some(byOid[above]) else Nearest(byOid, above)
  }

  /** What `Nearest` finds: the longest proper prefix registered, if any is. */
  lemma {:induction false} NearestIs(byOid: map<Oid, nat>, o: Oid)
    ensures match Nearest(byOid, o)
      case None => forall k :: 0 < k < |o| ==> o[..k] !in byOid
      case Some(p) => exists k :: 0 < k < |o| && o[..k] in byOid && byOid[o[..k]] == p && forall j :: k < j < |o| ==> o[..j] !in byOid
    decreases |o|
  {
    if |o| > 1 {
      var above := o[..|o| - 1];
      if above !in byOid {
        NearestIs(byOid, above);
        assert forall k :: 0 < k < |above| ==> above[..k] == o[..k];
        assert forall k :: 0 < k < |o| ==> k == |o| - 1 || (0 < k < |above| && o[..k] == above[..k]);
      }
    }
  }

  // ---------------------------------------------------------------- the forest, as sequences

  predicate Registered(nodes: seq<Node>, byOid: map<Oid, nat>, n: nat)
  {
    n < |nodes| && nodes[n].oid in byOid && byOid[nodes[n].oid] == n
  }

  /** The registered nodes of a list, in its order. */
  function Winners(nodes: seq<Node>, byOid: map<Oid, nat>, list: seq<nat>): seq<nat>
  {
    if list == [] then []
    else
      var last := list[|list| - 1];
      Winners(nodes, byOid, list[..|list| - 1]) + if Registered(nodes, byOid, last) then [last] else []
  }

  function Up(nodes: seq<Node>, byOid: map<Oid, nat>, n: nat): Option<nat>
    requires n < |nodes|
  {
    Nearest(byOid, nodes[n].oid)
  }

  /** The nodes of a list that hang directly below `p`, in its order. */
  function Kids(nodes: seq<Node>, byOid: map<Oid, nat>, list: seq<nat>, p: Option<nat>): seq<nat>
    requires Indices(nodes, list)
  {
    if list == [] then []
    else
      var last := list[|list| - 1];
      Kids(nodes, byOid, list[..|list| - 1], p) + if Up(nodes, byOid, last) == p then [last] else []
  }

  lemma {:induction false} KidsConcat(nodes: seq<Node>, byOid: map<Oid, nat>, a: seq<nat>, b: seq<nat>, p: Option<nat>)
    requires Indices(nodes, a) && Indices(nodes, b)
    ensures Kids(nodes, byOid, a + b, p) == Kids(nodes, byOid, a, p) + Kids(nodes, byOid, b, p)
    decreases |b|
  {
    if b == [] {
      assert a + b == a;
    } else {
      var front := b[..|b| - 1];
      assert (a + b)[..|a + b| - 1] == a + front;
      KidsConcat(nodes, byOid, a, front, p);
    }
  }

  lemma {:induction false} KidsNone(nodes: seq<Node>, byOid: map<Oid, nat>, list: seq<nat>, p: Option<nat>)
    requires Indices(nodes, list) && forall i :: 0 <= i < |list| ==> Up(nodes, byOid, list[i]) != p
    ensures Kids(nodes, byOid, list, p) == []
  {
    if list != [] { KidsNone(nodes, byOid, list[..|list| - 1], p); }
  }

  lemma {:induction false} KidsAreFrom(nodes: seq<Node>, byOid: map<Oid, nat>, list: seq<nat>, p: Option<nat>)
    requires Indices(nodes, list)
    ensures forall c :: c in Kids(nodes, byOid, list, p) ==> c in list && c < |nodes| && Up(nodes, byOid, c) == p
  {
    if list != [] {
      KidsAreFrom(nodes, byOid, list[..|list| - 1], p);
      assert forall c :: c in list[..|list| - 1] ==> c in list;
    }
  }

  /** Every node lies deeper than the one it is listed under. */
  ghost predicate Deep(nodes: seq<Node>, children: seq<seq<nat>>)
  {
    && |children| == |nodes|
    && forall p, i :: 0 <= p < |children| && 0 <= i < |children[p]| ==>
         children[p][i] < |nodes| && |nodes[p].oid| < |nodes[children[p][i]].oid| <= MaxOidLength
  }

  ghost predicate Deeper(nodes: seq<Node>, list: seq<nat>, d: nat)
  {
    forall i :: 0 <= i < |list| ==> list[i] < |nodes| && d < |nodes[list[i]].oid| <= MaxOidLength
  }

  /** The walk of a forest: each node before its children, siblings in their order. */
  ghost function Preorder(nodes: seq<Node>, children: seq<seq<nat>>, list: seq<nat>, d: nat := 0): seq<nat>
    requires Deep(nodes, children) && Deeper(nodes, list, d)
    decreases MaxOidLength - d, |list|
  {
    if list == [] then []
    else
      assert Deeper(nodes, children[list[0]], |nodes[list[0]].oid|);
      [list[0]] + Preorder(nodes, children, children[list[0]], |nodes[list[0]].oid|) + Preorder(nodes, children, list[1..], d)
  }

  /** Registered nodes, strictly ordered, and the register they come from. */
  ghost predicate Ranked(nodes: seq<Node>, byOid: map<Oid, nat>, r: seq<nat>)
  {
    && Resolvable(nodes)
    && (forall i :: 0 <= i < |r| ==> Registered(nodes, byOid, r[i]))
    && (forall o :: o in byOid ==> o != [] && byOid[o] in r && byOid[o] < |nodes| && nodes[byOid[o]].oid == o)
    && (forall i, j :: 0 <= i < j < |r| ==> Less(nodes[r[i]].oid, nodes[r[j]].oid))
  }

  /** The children and roots the placement builds. */
  ghost predicate Linked(nodes: seq<Node>, byOid: map<Oid, nat>, r: seq<nat>, children: seq<seq<nat>>, roots: seq<nat>)
    requires Ranked(nodes, byOid, r)
  {
    && |children| == |nodes|
    && (forall p :: 0 <= p < |nodes| ==> children[p] == Kids(nodes, byOid, r, Some(p)))
    && roots == Kids(nodes, byOid, r, None)
  }

  /** A registered parent is a registered proper prefix with no longer one beside it. */
  lemma UpIs(nodes: seq<Node>, byOid: map<Oid, nat>, r: seq<nat>, n: nat)
    requires Ranked(nodes, byOid, r) && n < |nodes|
    ensures match Up(nodes, byOid, n)
      case Some(p) => && Registered(nodes, byOid, p) && p in r && Under(nodes[p].oid, nodes[n].oid)
                      && forall q: nat :: Registered(nodes, byOid, q) && Under(nodes[q].oid, nodes[n].oid) ==> |nodes[q].oid| <= |nodes[p].oid|
      case None => forall q: nat :: Registered(nodes, byOid, q) ==> !Under(nodes[q].oid, nodes[n].oid)
  {
    var o := nodes[n].oid;
    NearestIs(byOid, o);
    forall q: nat | Registered(nodes, byOid, q) && Under(nodes[q].oid, o) ensures nodes[q].oid == o[..|nodes[q].oid|] && 0 < |nodes[q].oid| < |o| {}
  }

  lemma LinkedIsDeep(nodes: seq<Node>, byOid: map<Oid, nat>, r: seq<nat>, children: seq<seq<nat>>, roots: seq<nat>)
    requires Ranked(nodes, byOid, r) && Linked(nodes, byOid, r, children, roots)
    ensures Deep(nodes, children) && Deeper(nodes, roots, 0)
  {
    forall p, i | 0 <= p < |children| && 0 <= i < |children[p]|
      ensures children[p][i] < |nodes| && |nodes[p].oid| < |nodes[children[p][i]].oid| <= MaxOidLength
    {
      KidsAreFrom(nodes, byOid, r, Some(p));
      assert children[p][i] in children[p];
      UpIs(nodes, byOid, r, children[p][i]);
    }
    KidsAreFrom(nodes, byOid, r, None);
    assert forall i :: 0 <= i < |roots| ==> roots[i] in roots && roots[i] in r;
  }

  // ---------------------------------------------------------------- the walk lists the register in order

  /** `r[lo..hi]` holds whole subtrees directly below `p`, the last ones there are: all its nodes
      lie below `p`, everything registered between `p` and them is in the block, and so is
      everything registered below them. */
  ghost predicate Block(nodes: seq<Node>, byOid: map<Oid, nat>, r: seq<nat>, lo: nat, hi: nat, p: Option<nat>)
    requires Ranked(nodes, byOid, r)
  {
    && lo <= hi <= |r|
    && (p.Some? ==> Registered(nodes, byOid, p.value) && forall i :: lo <= i < hi ==> Under(nodes[p.value].oid, nodes[r[i]].oid))
    && (forall i, j :: lo <= i < hi && 0 <= j < |r| && Under(nodes[r[j]].oid, nodes[r[i]].oid) ==>
          lo <= j < hi || (p.Some? && |nodes[r[j]].oid| <= |nodes[p.value].oid|))
    && (forall i, j :: lo <= i < hi && 0 <= j < |r| && Under(nodes[r[i]].oid, nodes[r[j]].oid) ==> lo <= j < hi)
  }

  function Depth(nodes: seq<Node>, p: Option<nat>): nat
    requires p.Some? ==> p.value < |nodes|
  {
    if p.None? then 0 else |nodes[p.value].oid|
  }

  /** The first node of a block hangs directly below `p`. */
  lemma HeadHangs(nodes: seq<Node>, byOid: map<Oid, nat>, r: seq<nat>, lo: nat, hi: nat, p: Option<nat>)
    requires Ranked(nodes, byOid, r) && Block(nodes, byOid, r, lo, hi, p) && lo < hi
    ensures Up(nodes, byOid, r[lo]) == p
  {
    UpIs(nodes, byOid, r, r[lo]);
    hide Nearest;
    match Up(nodes, byOid, r[lo])
    case Some(q) =>
      var j :| 0 <= j < |r| && r[j] == q;
      UnderIsLess(nodes[q].oid, nodes[r[lo]].oid);
      LessTotal(nodes[q].oid, nodes[r[lo]].oid);
      assert j < lo;
      assert p.Some? && |nodes[q].oid| <= |nodes[p.value].oid|;
      SameLength(nodes[q].oid, nodes[p.value].oid, nodes[r[lo]].oid);
      assert byOid[nodes[q].oid] == q && byOid[nodes[p.value].oid] == p.value;
    case None =>
  }

  lemma SameLength(a: Oid, b: Oid, o: Oid)
    requires a <= o && b <= o && |a| == |b|
    ensures a == b
  {
    assert a == o[..|a|] && b == o[..|b|];
  }

  /** Where the subtree of a block's first node ends. */
  lemma SubtreeEnd(nodes: seq<Node>, byOid: map<Oid, nat>, r: seq<nat>, lo: nat, hi: nat) returns (m: nat)
    requires Ranked(nodes, byOid, r) && lo < hi <= |r|
    ensures lo < m <= hi
    ensures forall i :: lo <= i < m ==> HasPrefix(nodes[r[i]].oid, nodes[r[lo]].oid)
    ensures forall i :: m <= i < hi ==> !HasPrefix(nodes[r[i]].oid, nodes[r[lo]].oid)
  {
    var c := nodes[r[lo]].oid;
    m := lo + 1;
    while m < hi && HasPrefix(nodes[r[m]].oid, c)
      invariant lo < m <= hi && forall i :: lo <= i < m ==> HasPrefix(nodes[r[i]].oid, c)
    {
      m := m + 1;
    }
    forall i | m <= i < hi ensures !HasPrefix(nodes[r[i]].oid, c) {
      if i > m && HasPrefix(nodes[r[i]].oid, c) {
        SubtreeContiguous(c, c, nodes[r[m]].oid, nodes[r[i]].oid);
      }
    }
  }

  /** The subtree of a block's first node, without it, is a block below it. */
  lemma InnerBlock(nodes: seq<Node>, byOid: map<Oid, nat>, r: seq<nat>, lo: nat, m: nat, hi: nat, p: Option<nat>)
    requires Ranked(nodes, byOid, r) && Block(nodes, byOid, r, lo, hi, p) && lo < m <= hi
    requires forall i :: lo <= i < m ==> HasPrefix(nodes[r[i]].oid, nodes[r[lo]].oid)
    requires forall i :: m <= i < hi ==> !HasPrefix(nodes[r[i]].oid, nodes[r[lo]].oid)
    ensures Block(nodes, byOid, r, lo + 1, m, Some(r[lo]))
  {
    var c := nodes[r[lo]].oid;
    forall i | lo + 1 <= i < m ensures Under(c, nodes[r[i]].oid) { LessTotal(c, nodes[r[i]].oid); }
    forall i, j | lo + 1 <= i < m && 0 <= j < |r| && Under(nodes[r[j]].oid, nodes[r[i]].oid)
      ensures lo + 1 <= j < m || |nodes[r[j]].oid| <= |c|
    {
      var q, o := nodes[r[j]].oid, nodes[r[i]].oid;
      if |q| > |c| {
        assert p.Some? ==> |nodes[p.value].oid| < |c|;
        assert lo <= j < hi;
        assert c == o[..|c|] == q[..|c|];
        assert j != lo;
      }
    }
    forall i, j | lo + 1 <= i < m && 0 <= j < |r| && Under(nodes[r[i]].oid, nodes[r[j]].oid) ensures lo + 1 <= j < m {
      assert HasPrefix(nodes[r[j]].oid, c);
      assert j != lo;
    }
  }

  /** What follows the first node's subtree is still a block below `p`. */
  lemma RestBlock(nodes: seq<Node>, byOid: map<Oid, nat>, r: seq<nat>, lo: nat, m: nat, hi: nat, p: Option<nat>)
    requires Ranked(nodes, byOid, r) && Block(nodes, byOid, r, lo, hi, p) && lo < m <= hi
    requires forall i :: lo <= i < m ==> HasPrefix(nodes[r[i]].oid, nodes[r[lo]].oid)
    requires forall i :: m <= i < hi ==> !HasPrefix(nodes[r[i]].oid, nodes[r[lo]].oid)
    ensures Block(nodes, byOid, r, m, hi, p)
  {
    var c := nodes[r[lo]].oid;
    forall i, j | m <= i < hi && 0 <= j < |r| && Under(nodes[r[j]].oid, nodes[r[i]].oid) && lo <= j < hi ensures m <= j {
      PrefixOfPrefix(c, nodes[r[j]].oid, nodes[r[i]].oid);
    }
    forall i, j | m <= i < hi && 0 <= j < |r| && Under(nodes[r[i]].oid, nodes[r[j]].oid) ensures m <= j < hi {
      UnderIsLess(nodes[r[i]].oid, nodes[r[j]].oid);
      if j < i { LessTotal(nodes[r[i]].oid, nodes[r[j]].oid); }
    }
  }

  lemma PrefixOfPrefix(a: Oid, b: Oid, c: Oid)
    ensures HasPrefix(b, a) && HasPrefix(c, b) ==> HasPrefix(c, a)
  {
  }

  lemma IndicesSlice(nodes: seq<Node>, byOid: map<Oid, nat>, r: seq<nat>, lo: nat, hi: nat)
    requires Ranked(nodes, byOid, r) && lo <= hi <= |r|
    ensures Indices(nodes, r[lo..hi])
  {
  }

  /** Outside the first node's subtree nothing hangs on it. */
  lemma OutsideIsNoKid(nodes: seq<Node>, byOid: map<Oid, nat>, r: seq<nat>, lo: nat, m: nat, hi: nat, p: Option<nat>, i: nat)
    requires Ranked(nodes, byOid, r) && Block(nodes, byOid, r, lo, hi, p) && lo < m <= hi
    requires forall i :: m <= i < hi ==> !HasPrefix(nodes[r[i]].oid, nodes[r[lo]].oid)
    requires i <= lo || m <= i < |r|
    ensures Up(nodes, byOid, r[i]) != Some(r[lo])
  {
    UpIs(nodes, byOid, r, r[i]);
    hide Up;
    var c, o := nodes[r[lo]].oid, nodes[r[i]].oid;
    LessTotal(c, o);
    assert Under(c, o) ==> lo < i && lo <= i < hi by {
      if Under(c, o) { UnderIsLess(c, o); }
    }
  }

  /** A node's children are all in its subtree. */
  lemma ChildrenInside(nodes: seq<Node>, byOid: map<Oid, nat>, r: seq<nat>, lo: nat, m: nat, hi: nat, p: Option<nat>)
    requires Ranked(nodes, byOid, r) && Block(nodes, byOid, r, lo, hi, p) && lo < m <= hi <= |r|
    requires forall i :: m <= i < hi ==> !HasPrefix(nodes[r[i]].oid, nodes[r[lo]].oid)
    requires Indices(nodes, r) && Indices(nodes, r[lo + 1..m])
    ensures Kids(nodes, byOid, r, Some(r[lo])) == Kids(nodes, byOid, r[lo + 1..m], Some(r[lo]))
  {
    hide Block, Up, Kids;
    var c := Some(r[lo]);
    var before, inside, after := r[..lo + 1], r[lo + 1..m], r[m..];
    forall i | 0 <= i < |before| ensures Up(nodes, byOid, before[i]) != c {
      OutsideIsNoKid(nodes, byOid, r, lo, m, hi, p, i);
    }
    forall i | 0 <= i < |after| ensures Up(nodes, byOid, after[i]) != c {
      OutsideIsNoKid(nodes, byOid, r, lo, m, hi, p, m + i);
    }
    hide Ranked;
    KidsNone(nodes, byOid, before, c);
    KidsNone(nodes, byOid, after, c);
    KidsConcat(nodes, byOid, inside, after, c);
    KidsConcat(nodes, byOid, before, inside + after, c);
    assert r == before + (inside + after);
  }

  /** Nodes inside the first node's subtree do not hang on `p`. */
  lemma InsideIsNoKid(nodes: seq<Node>, byOid: map<Oid, nat>, r: seq<nat>, lo: nat, hi: nat, p: Option<nat>, i: nat)
    requires Ranked(nodes, byOid, r) && Block(nodes, byOid, r, lo, hi, p) && lo < i < hi
    requires HasPrefix(nodes[r[i]].oid, nodes[r[lo]].oid)
    ensures Up(nodes, byOid, r[i]) != p
  {
    var c, o := nodes[r[lo]].oid, nodes[r[i]].oid;
    UpIs(nodes, byOid, r, r[i]);
    LessTotal(c, o);
    assert Under(c, o);
    hide Up;
    assert Registered(nodes, byOid, r[lo]);
    assert p.Some? ==> |nodes[p.value].oid| < |c|;
  }

  lemma SingleKid(nodes: seq<Node>, byOid: map<Oid, nat>, n: nat, p: Option<nat>)
    requires n < |nodes| && Up(nodes, byOid, n) == p
    ensures Kids(nodes, byOid, [n], p) == [n]
  {
    assert [n][..0] == [];
  }

  /** Directly below `p`, a block has its first node and what the rest of it has. */
  lemma BlockKids(nodes: seq<Node>, byOid: map<Oid, nat>, r: seq<nat>, lo: nat, m: nat, hi: nat, p: Option<nat>)
    requires Ranked(nodes, byOid, r) && Block(nodes, byOid, r, lo, hi, p) && lo < m <= hi <= |r|
    requires forall i :: lo <= i < m ==> HasPrefix(nodes[r[i]].oid, nodes[r[lo]].oid)
    requires Indices(nodes, r[lo..hi]) && Indices(nodes, r[m..hi])
    ensures Kids(nodes, byOid, r[lo..hi], p) == [r[lo]] + Kids(nodes, byOid, r[m..hi], p)
  {
    hide Block, Up, Kids;
    var first, inside, rest := [r[lo]], r[lo + 1..m], r[m..hi];
    HeadHangs(nodes, byOid, r, lo, hi, p);
    forall i | 0 <= i < |inside| ensures Up(nodes, byOid, inside[i]) != p {
      InsideIsNoKid(nodes, byOid, r, lo, hi, p, lo + 1 + i);
    }
    hide Ranked;
    KidsNone(nodes, byOid, inside, p);
    SingleKid(nodes, byOid, r[lo], p);
    KidsConcat(nodes, byOid, first, inside, p);
    KidsConcat(nodes, byOid, first + inside, rest, p);
    assert r[lo..hi] == (first + inside) + rest;
    assert [r[lo]] + [] == [r[lo]];
  }

  /** The walk of what hangs directly below `p` in a block lists the block. */
  ghost predicate WalksAs(nodes: seq<Node>, byOid: map<Oid, nat>, r: seq<nat>, children: seq<seq<nat>>, lo: nat, hi: nat, p: Option<nat>)
  {
    && lo <= hi <= |r| && (p.Some? ==> p.value < |nodes|)
    && Deep(nodes, children) && Indices(nodes, r[lo..hi]) && Deeper(nodes, Kids(nodes, byOid, r[lo..hi], p), Depth(nodes, p))
    && Preorder(nodes, children, Kids(nodes, byOid, r[lo..hi], p), Depth(nodes, p)) == r[lo..hi]
  }

  lemma {:induction false} BlockWalk(nodes: seq<Node>, byOid: map<Oid, nat>, r: seq<nat>, children: seq<seq<nat>>, roots: seq<nat>,
                                     lo: nat, hi: nat, p: Option<nat>)
    requires Ranked(nodes, byOid, r) && Linked(nodes, byOid, r, children, roots) && Block(nodes, byOid, r, lo, hi, p)
    ensures WalksAs(nodes, byOid, r, children, lo, hi, p)
    decreases hi - lo
  {
    LinkedIsDeep(nodes, byOid, r, children, roots);
    IndicesSlice(nodes, byOid, r, lo, hi);
    if lo == hi {
      assert r[lo..hi] == [];
    } else {
      var m := SubtreeEnd(nodes, byOid, r, lo, hi);
      InnerBlock(nodes, byOid, r, lo, m, hi, p);
      RestBlock(nodes, byOid, r, lo, m, hi, p);
      BlockWalk(nodes, byOid, r, children, roots, lo + 1, m, Some(r[lo]));
      BlockWalk(nodes, byOid, r, children, roots, m, hi, p);
      BlockJoins(nodes, byOid, r, children, roots, lo, m, hi, p);
    }
  }

  /** A node, its subtree's walk and the walk of the rest make up the walk of the block. */
  lemma BlockJoins(nodes: seq<Node>, byOid: map<Oid, nat>, r: seq<nat>, children: seq<seq<nat>>, roots: seq<nat>,
                   lo: nat, m: nat, hi: nat, p: Option<nat>)
    requires Ranked(nodes, byOid, r) && Linked(nodes, byOid, r, children, roots) && Block(nodes, byOid, r, lo, hi, p)
    requires lo < m <= hi <= |r| && Deep(nodes, children) && (p.Some? ==> p.value < |nodes|) && r[lo] < |nodes|
    requires forall i :: lo <= i < m ==> HasPrefix(nodes[r[i]].oid, nodes[r[lo]].oid)
    requires forall i :: m <= i < hi ==> !HasPrefix(nodes[r[i]].oid, nodes[r[lo]].oid)
    requires Indices(nodes, r[lo..hi])
    requires WalksAs(nodes, byOid, r, children, lo + 1, m, Some(r[lo])) && WalksAs(nodes, byOid, r, children, m, hi, p)
    ensures WalksAs(nodes, byOid, r, children, lo, hi, p)
  {
    BlockFacts(nodes, byOid, r, children, roots, lo, m, hi, p);
    hide Kids, Preorder, Block, Ranked, Linked, Depth, Up, Deep, Deeper, Indices;
    WalkSplits(nodes, children, r[lo], Kids(nodes, byOid, r[m..hi], p), Depth(nodes, p), r[lo + 1..m], r[m..hi]);
    SliceSplits(r, lo, m, hi);
  }

  lemma SliceSplits(r: seq<nat>, lo: nat, m: nat, hi: nat)
    requires lo < m <= hi <= |r|
    ensures r[lo..hi] == [r[lo]] + r[lo + 1..m] + r[m..hi]
  {
  }

  lemma BlockFacts(nodes: seq<Node>, byOid: map<Oid, nat>, r: seq<nat>, children: seq<seq<nat>>, roots: seq<nat>,
                   lo: nat, m: nat, hi: nat, p: Option<nat>)
    requires Ranked(nodes, byOid, r) && Linked(nodes, byOid, r, children, roots) && Block(nodes, byOid, r, lo, hi, p)
    requires lo < m <= hi <= |r| && (p.Some? ==> p.value < |nodes|)
    requires forall i :: lo <= i < m ==> HasPrefix(nodes[r[i]].oid, nodes[r[lo]].oid)
    requires forall i :: m <= i < hi ==> !HasPrefix(nodes[r[i]].oid, nodes[r[lo]].oid)
    requires Indices(nodes, r[lo..hi]) && Indices(nodes, r[lo + 1..m]) && Indices(nodes, r[m..hi])
    ensures Kids(nodes, byOid, r[lo..hi], p) == [r[lo]] + Kids(nodes, byOid, r[m..hi], p)
    ensures r[lo] < |nodes| == |children| && children[r[lo]] == Kids(nodes, byOid, r[lo + 1..m], Some(r[lo]))
    ensures Depth(nodes, p) < |nodes[r[lo]].oid| <= MaxOidLength
  {
    BlockKids(nodes, byOid, r, lo, m, hi, p);
    IndicesSlice(nodes, byOid, r, 0, |r|);
    assert r[0..|r|] == r;
    ChildrenInside(nodes, byOid, r, lo, m, hi, p);
    assert Registered(nodes, byOid, r[lo]);
    assert p.Some? ==> Under(nodes[p.value].oid, nodes[r[lo]].oid);
    hide Kids, Up;
  }

  lemma WalkSplits(nodes: seq<Node>, children: seq<seq<nat>>, head: nat, tail: seq<nat>, d: nat, inner: seq<nat>, rest: seq<nat>)
    requires Deep(nodes, children) && head < |nodes| && d < |nodes[head].oid| <= MaxOidLength
    requires Deeper(nodes, tail, d) && Deeper(nodes, children[head], |nodes[head].oid|)
    requires Preorder(nodes, children, children[head], |nodes[head].oid|) == inner
    requires Preorder(nodes, children, tail, d) == rest
    ensures Deeper(nodes, [head] + tail, d) && Preorder(nodes, children, [head] + tail, d) == [head] + inner + rest
  {
    assert ([head] + tail)[1..] == tail;
  }

  /** The preorder walk of the forest lists every registered node once, in increasing order. */
  lemma WalkIsInOrder(nodes: seq<Node>, byOid: map<Oid, nat>, r: seq<nat>, children: seq<seq<nat>>, roots: seq<nat>)
    requires Ranked(nodes, byOid, r) && Linked(nodes, byOid, r, children, roots)
    ensures Deep(nodes, children) && Deeper(nodes, roots, 0)
    ensures Preorder(nodes, children, roots) == r
  {
    assert r[0..|r|] == r;
    BlockWalk(nodes, byOid, r, children, roots, 0, |r|, None);
  }

  // ---------------------------------------------------------------- the placement

  /** The stronger claim wins, and of two as strong the one that came first. */
  function SettleOidCollision(nodes: seq<Node>, kept: nat, other: nat): nat
    requires kept < |nodes| && other < |nodes|
  {
    if ClaimStrength(nodes[other].kind) > ClaimStrength(nodes[kept].kind) then other else kept
  }

  function Register(nodes: seq<Node>, byOid: map<Oid, nat>, n: nat): map<Oid, nat>
    requires n < |nodes| && forall o :: o in byOid ==> byOid[o] < |nodes|
  {
    var o := nodes[n].oid;
    if o == [] then byOid
    else if o in byOid then byOid[o := SettleOidCollision(nodes, byOid[o], n)]
    else byOid[o := n]
  }

  lemma RegisterKeeps(nodes: seq<Node>, byOid: map<Oid, nat>, n: nat)
    requires n < |nodes| && Registers(nodes, byOid, n)
    ensures Registers(nodes, Register(nodes, byOid, n), n + 1)
  {
    var o := nodes[n].oid;
    if o in byOid { SettledWins(nodes, byOid[o], n); }
    hide ClaimStrength;
  }

  /** The settlement between the winner so far and one more claimant. */
  lemma SettledWins(nodes: seq<Node>, kept: nat, n: nat)
    requires n < |nodes| && Wins(nodes, kept, n) && nodes[kept].oid == nodes[n].oid
    ensures Wins(nodes, SettleOidCollision(nodes, kept, n), n + 1)
  {
  }

  lemma {:induction false} WinnersAreFrom(nodes: seq<Node>, byOid: map<Oid, nat>, list: seq<nat>)
    ensures forall n :: n in Winners(nodes, byOid, list) <==> n in list && Registered(nodes, byOid, n)
  {
    if list != [] {
      WinnersAreFrom(nodes, byOid, list[..|list| - 1]);
      assert list == list[..|list| - 1] + [list[|list| - 1]];
    }
  }

  predicate StrictlySorted(nodes: seq<Node>, r: seq<nat>)
  {
    Indices(nodes, r) && forall i, j :: 0 <= i < j < |r| ==> Less(nodes[r[i]].oid, nodes[r[j]].oid)
  }

  lemma {:induction false} WinnersSorted(nodes: seq<Node>, byOid: map<Oid, nat>, list: seq<nat>)
    requires SortedByOid(nodes, list) && Distinct(list)
    ensures StrictlySorted(nodes, Winners(nodes, byOid, list))
  {
    if list != [] {
      var front, last := list[..|list| - 1], list[|list| - 1];
      WinnersSorted(nodes, byOid, front);
      WinnersAreFrom(nodes, byOid, front);
      var before, all := Winners(nodes, byOid, front), Winners(nodes, byOid, list);
      forall i, j | 0 <= i < j < |all| ensures Less(nodes[all[i]].oid, nodes[all[j]].oid) {
        assert all[i] == before[i] && before[i] in front;
        if j == |before| {
          var k :| 0 <= k < |front| && front[k] == all[i];
          assert list[k] == all[i] && list[k] != last;
        }
      }
    }
  }

  lemma {:induction false} SingleIsDistinct(list: seq<nat>)
    requires forall n :: multiset(list)[n] <= 1
    ensures Distinct(list)
  {
    if list != [] {
      var front, last := list[..|list| - 1], list[|list| - 1];
      assert list == front + [last];
      assert forall n :: multiset(front)[n] <= multiset(list)[n];
      SingleIsDistinct(front);
      assert last !in multiset(front);
      forall i | 0 <= i < |front| ensures front[i] != last { assert front[i] in multiset(front); }
    }
  }

  lemma SortedClaimants(nodes: seq<Node>)
    ensures var s := SortByOid(nodes, Claimants(nodes, |nodes|));
      SortedByOid(nodes, s) && Distinct(s) && forall n: nat :: n in s <==> n < |nodes| && nodes[n].oid != []
  {
    var c := Claimants(nodes, |nodes|);
    ClaimantsAre(nodes, |nodes|);
    var s := SortByOid(nodes, c);
    SingleIsDistinct(s);
    forall n: nat ensures n in s <==> n in c { assert n in multiset(s) <==> n in multiset(c); }
  }

  function Placement(nodes: seq<Node>, byOid: map<Oid, nat>): seq<nat>
  {
    Winners(nodes, byOid, SortByOid(nodes, Claimants(nodes, |nodes|)))
  }

  lemma PlacementRanked(nodes: seq<Node>, byOid: map<Oid, nat>)
    requires Resolvable(nodes) && Registers(nodes, byOid, |nodes|)
    ensures Ranked(nodes, byOid, Placement(nodes, byOid))
    ensures forall n: nat :: n in Placement(nodes, byOid) <==> Registered(nodes, byOid, n)
  {
    var s := SortByOid(nodes, Claimants(nodes, |nodes|));
    SortedClaimants(nodes);
    WinnersSorted(nodes, byOid, s);
    WinnersAreFrom(nodes, byOid, s);
    var r := Placement(nodes, byOid);
    forall i | 0 <= i < |r| ensures Registered(nodes, byOid, r[i]) { assert r[i] in r; }
  }

  function Added(nodes: seq<Node>, byOid: map<Oid, nat>, n: nat, p: Option<nat>): seq<nat>
    requires n < |nodes|
  {
    if Registered(nodes, byOid, n) && Up(nodes, byOid, n) == p then [n] else []
  }

  /** What one more placed node adds to the lists below each parent. */
  lemma PlaceOne(nodes: seq<Node>, byOid: map<Oid, nat>, list: seq<nat>, n: nat)
    requires Indices(nodes, list) && n < |nodes|
    ensures Indices(nodes, Winners(nodes, byOid, list)) && Indices(nodes, Winners(nodes, byOid, list + [n]))
    ensures forall p ::
      Kids(nodes, byOid, Winners(nodes, byOid, list + [n]), p) == Kids(nodes, byOid, Winners(nodes, byOid, list), p) + Added(nodes, byOid, n, p)
  {
    assert (list + [n])[..|list|] == list;
    WinnersAreFrom(nodes, byOid, list);
    var before, after := Winners(nodes, byOid, list), Winners(nodes, byOid, list + [n]);
    assert after == if Registered(nodes, byOid, n) then before + [n] else before;
    hide Winners;
    forall i | 0 <= i < |before| ensures before[i] < |nodes| { assert before[i] in before; }
    forall p ensures Kids(nodes, byOid, after, p) == Kids(nodes, byOid, before, p) + Added(nodes, byOid, n, p) {
      hide Up;
      if Registered(nodes, byOid, n) { assert after[..|before|] == before; }
    }
  }

  /** The links after the claimants of `done` have been placed. */
  ghost predicate PlacedUpTo(nodes: seq<Node>, byOid: map<Oid, nat>, parent: seq<Option<nat>>, children: seq<seq<nat>>, roots: seq<nat>, done: seq<nat>)
  {
    && |parent| == |children| == |nodes|
    && (forall n :: 0 <= n < |nodes| ==> parent[n] == if n in done then Up(nodes, byOid, n) else None)
    && Indices(nodes, Winners(nodes, byOid, done))
    && (forall p :: 0 <= p < |nodes| ==> children[p] == Kids(nodes, byOid, Winners(nodes, byOid, done), Some(p)))
    && roots == Kids(nodes, byOid, Winners(nodes, byOid, done), None)
  }

  /** One node's links: its parent, its place among the parent's children or the roots. */
  lemma PlaceKeeps(nodes: seq<Node>, byOid: map<Oid, nat>, parent: seq<Option<nat>>, children: seq<seq<nat>>, roots: seq<nat>, done: seq<nat>,
                   n: nat, parent': seq<Option<nat>>, children': seq<seq<nat>>, roots': seq<nat>)
    requires PlacedUpTo(nodes, byOid, parent, children, roots, done) && Indices(nodes, done) && n < |nodes| && n !in done
    requires Up(nodes, byOid, n).Some? ==> Up(nodes, byOid, n).value < |nodes|
    requires var up := Up(nodes, byOid, n);
      && parent' == parent[n := up]
      && children' == (if up.Some? && Registered(nodes, byOid, n) then children[up.value := children[up.value] + [n]] else children)
      && roots' == (if up.None? && Registered(nodes, byOid, n) then roots + [n] else roots)
    ensures PlacedUpTo(nodes, byOid, parent', children', roots', done + [n])
  {
    hide Winners, Kids, Up, Registered, Indices, Added;
    PlaceOne(nodes, byOid, done, n);
    ParentsGrow(nodes, byOid, parent, done, n, parent');
    ChildrenGrow(nodes, byOid, Winners(nodes, byOid, done), Winners(nodes, byOid, done + [n]), children, n, children');
    RootsGrow(nodes, byOid, Winners(nodes, byOid, done), Winners(nodes, byOid, done + [n]), roots, n, roots');
  }

  lemma RootsGrow(nodes: seq<Node>, byOid: map<Oid, nat>, before: seq<nat>, after: seq<nat>, roots: seq<nat>, n: nat, roots': seq<nat>)
    requires Indices(nodes, before) && Indices(nodes, after) && n < |nodes|
    requires Kids(nodes, byOid, after, None) == Kids(nodes, byOid, before, None) + Added(nodes, byOid, n, None)
    requires roots == Kids(nodes, byOid, before, None)
    requires roots' == if Up(nodes, byOid, n).None? && Registered(nodes, byOid, n) then roots + [n] else roots
    ensures roots' == Kids(nodes, byOid, after, None)
  {
    hide Kids, Up, Registered, Indices;
    assert roots + [] == roots;
  }

  lemma ChildrenGrow(nodes: seq<Node>, byOid: map<Oid, nat>, before: seq<nat>, after: seq<nat>, children: seq<seq<nat>>, n: nat, children': seq<seq<nat>>)
    requires Indices(nodes, before) && Indices(nodes, after) && n < |nodes| == |children|
    requires forall p :: Kids(nodes, byOid, after, p) == Kids(nodes, byOid, before, p) + Added(nodes, byOid, n, p)
    requires forall p :: 0 <= p < |nodes| ==> children[p] == Kids(nodes, byOid, before, Some(p))
    requires Up(nodes, byOid, n).Some? ==> Up(nodes, byOid, n).value < |nodes|
    requires var up := Up(nodes, byOid, n);
      children' == if up.Some? && Registered(nodes, byOid, n) then children[up.value := children[up.value] + [n]] else children
    ensures |children'| == |nodes| && forall p :: 0 <= p < |nodes| ==> children'[p] == Kids(nodes, byOid, after, Some(p))
  {
    hide Kids, Up, Registered, Indices;
    forall p | 0 <= p < |nodes| ensures children'[p] == Kids(nodes, byOid, after, Some(p)) {
      ListGrows(children, children', n, Up(nodes, byOid, n), Registered(nodes, byOid, n), p);
    }
  }

  lemma ParentsGrow(nodes: seq<Node>, byOid: map<Oid, nat>, parent: seq<Option<nat>>, done: seq<nat>, n: nat, parent': seq<Option<nat>>)
    requires |parent| == |nodes| && n < |nodes| && parent' == parent[n := Up(nodes, byOid, n)]
    requires forall m :: 0 <= m < |nodes| ==> parent[m] == if m in done then Up(nodes, byOid, m) else None
    ensures forall m :: 0 <= m < |nodes| ==> parent'[m] == if m in done + [n] then Up(nodes, byOid, m) else None
  {
    hide Up;
    forall m | 0 <= m < |nodes| ensures parent'[m] == if m in done + [n] then Up(nodes, byOid, m) else None {
      assert m in done + [n] <==> m in done || m == n;
    }
  }

  lemma ListGrows(children: seq<seq<nat>>, children': seq<seq<nat>>, n: nat, up: Option<nat>, won: bool, p: nat)
    requires (up.Some? ==> up.value < |children|) && p < |children|
    requires children' == if up.Some? && won then children[up.value := children[up.value] + [n]] else children
    ensures children'[p] == children[p] + if won && up == Some(p) then [n] else []
  {
    assert children[p] + [] == children[p];
  }

  lemma NextIsNew(nodes: seq<Node>, sorted: seq<nat>, i: nat)
    requires Distinct(sorted) && Indices(nodes, sorted) && i < |sorted|
    ensures sorted[i] !in sorted[..i] && Indices(nodes, sorted[..i]) && sorted[..i + 1] == sorted[..i] + [sorted[i]]
  {
  }

  class Forest {
    const nodes: seq<Node>
    var byOid: map<Oid, nat>
    var parent: seq<Option<nat>>
    var children: seq<seq<nat>>
    var roots: seq<nat>
    var kind: seq<Kind>

    constructor (nodes: seq<Node>)
      ensures this.nodes == nodes && Fresh()
    {
      this.nodes := nodes;
      byOid, roots := map[], [];
      parent, children := seq(|nodes|, _ => None), seq(|nodes|, _ => []);
      kind := seq(|nodes|, n requires 0 <= n < |nodes| => nodes[n].kind);
    }

    predicate Fresh()
      reads this
    {
      && byOid == map[] && roots == [] && |parent| == |children| == |kind| == |nodes|
      && forall n :: 0 <= n < |nodes| ==> parent[n] == None && children[n] == [] && kind[n] == nodes[n].kind
    }

    /** What the placement leaves behind. */
    ghost predicate Placed()
      reads this
    {
      && Registers(nodes, byOid, |nodes|)
      && |parent| == |nodes| && (forall n :: 0 <= n < |nodes| ==> parent[n] == Up(nodes, byOid, n))
      && Ranked(nodes, byOid, Placement(nodes, byOid))
      && Linked(nodes, byOid, Placement(nodes, byOid), children, roots)
    }

    /** Registers every identifier with its winner and links the forest. */
    method PlaceNodes()
      requires Resolvable(nodes) && Fresh()
      modifies this
      ensures Placed() && kind == old(kind)
      ensures Deep(nodes, children) && Deeper(nodes, roots, 0)
      ensures Preorder(nodes, children, roots) == Placement(nodes, byOid)
    {
      hide Registers, Kids, Winners, Ranked, Claimants, SortByOid, Preorder, Deep, Deeper, Up, Placement;
      var claimants := RegisterAll();
      var sorted := SortByOid(nodes, claimants);
      SortedClaimants(nodes);
      hide Distinct, SortedByOid;
      LinkAll(sorted);
      FinishPlacement(nodes, byOid, parent, children, roots);
      WalkIsInOrder(nodes, byOid, Placement(nodes, byOid), children, roots);
    }

    /** Settles the table shape, in identifier order. */
    method Classify()
      requires Placed() && |kind| == |nodes| && forall n :: 0 <= n < |nodes| ==> kind[n] == nodes[n].kind
      modifies this`kind
      ensures Consistent(nodes, byOid, kind)
    {
      var ordered := SortByOid(nodes, Claimants(nodes, |nodes|));
      SortedClaimants(nodes);
      KindsBegin(nodes, byOid, kind);
      hide KindsUpTo, Ranked, Linked, SortByOid, Claimants, Distinct, SortedByOid, Registers, Up, Consistent;
      ClassifyAll(ordered);
      AllClassified(nodes, byOid, kind, ordered);
    }

    method ClassifyAll(ordered: seq<nat>)
      requires Registers(nodes, byOid, |nodes|) && SortedByOid(nodes, ordered) && Distinct(ordered)
      requires |parent| == |nodes| && forall n :: 0 <= n < |nodes| ==> parent[n] == Up(nodes, byOid, n)
      requires KindsUpTo(nodes, byOid, kind, [])
      modifies this`kind
      ensures KindsUpTo(nodes, byOid, kind, ordered[..|ordered|])
    {
      hide KindsUpTo, Distinct, SortedByOid, Registers, Up;
      for i := 0 to |ordered|
        invariant KindsUpTo(nodes, byOid, kind, ordered[..i])
      {
        InRange(nodes, byOid, kind, ordered, i);
        KindStep(nodes, byOid, kind, ordered, i);
        ClassifyOne(ordered[i]);
      }
    }

    method ClassifyOne(n: nat)
      requires n < |kind| == |nodes| && |parent| == |nodes| && (parent[n].Some? ==> parent[n].value < |kind|)
      modifies this`kind
      ensures kind == old(kind)[n := Classified(old(kind)[n], parent[n], old(kind))]
    {
      if kind[n] != Scalar || parent[n] == None { return; }
      match kind[parent[n].value] {
        case Table => kind := kind[n := Row];
        case Row => kind := kind[n := Column];
        case _ =>
      }
    }

    method RegisterAll() returns (claimants: seq<nat>)
      requires Fresh()
      modifies this`byOid
      ensures claimants == Claimants(nodes, |nodes|) && Registers(nodes, byOid, |nodes|)
    {
      claimants := [];
      assert Registers(nodes, byOid, 0);
      hide Registers;
      for i := 0 to |nodes|
        invariant claimants == Claimants(nodes, i) && Registers(nodes, byOid, i)
      {
        if nodes[i].oid != [] { claimants := claimants + [i]; }
        RegisterOne(i);
      }
    }

    /** The register after one more node. */
    method RegisterOne(n: nat)
      requires n < |nodes| && Registers(nodes, byOid, n)
      modifies this`byOid
      ensures Registers(nodes, byOid, n + 1)
    {
      RegisterKeeps(nodes, byOid, n);
      assert forall o :: o in byOid ==> byOid[o] < |nodes|;
      hide Registers;
      ghost var next := Register(nodes, byOid, n);
      if nodes[n].oid != [] {
        if nodes[n].oid in byOid {
          byOid := byOid[nodes[n].oid := SettleOidCollision(nodes, byOid[nodes[n].oid], n)];
        } else {
          byOid := byOid[nodes[n].oid := n];
        }
      }
      assert byOid == next;
    }

    method LinkAll(sorted: seq<nat>)
      requires Indices(nodes, sorted) && Distinct(sorted) && Registers(nodes, byOid, |nodes|)
      requires |parent| == |children| == |nodes| && roots == []
      requires forall n :: 0 <= n < |nodes| ==> parent[n] == None && children[n] == []
      modifies this`parent, this`children, this`roots
      ensures PlacedUpTo(nodes, byOid, parent, children, roots, sorted)
    {
      assert PlacedUpTo(nodes, byOid, parent, children, roots, []);
      hide PlacedUpTo, Registers, Distinct, Indices;
      for i := 0 to |sorted|
        invariant PlacedUpTo(nodes, byOid, parent, children, roots, sorted[..i])
      {
        NextIsNew(nodes, sorted, i);
        Place(sorted[..i], sorted[i]);
      }
      assert sorted[..|sorted|] == sorted;
    }

    /** The nearest registered ancestor of a node. */
    method FindParent(n: nat) returns (found: Option<nat>)
      requires n < |nodes| && Registers(nodes, byOid, |nodes|)
      ensures found == Up(nodes, byOid, n)
    {
      var o := nodes[n].oid;
      var above := if o == [] then [] else o[..|o| - 1];
      while above != []
        invariant above != [] ==> |above| < |o|
        invariant Nearest(byOid, o) == if above == [] then None else if above in byOid then Some(byOid[above]) else Nearest(byOid, above)
        decreases |above|
      {
        if above in byOid && byOid[above] != n { return Some(byOid[above]); }
        above := above[..|above| - 1];
      }
      return None;
    }

    method Place(ghost done: seq<nat>, n: nat)
      requires Registers(nodes, byOid, |nodes|) && Indices(nodes, done) && n < |nodes| && n !in done
      requires PlacedUpTo(nodes, byOid, parent, children, roots, done)
      modifies this`parent, this`children, this`roots
      ensures PlacedUpTo(nodes, byOid, parent, children, roots, done + [n])
    {
      UpInRange(nodes, byOid, n);
      assert |parent| == |children| == |nodes| && parent[n] == None;
      var found := FindParent(n);
      hide Winners, Kids, Up, Registers, PlacedUpTo;
      ghost var parent0, children0, roots0 := parent, children, roots;
      var registered := nodes[n].oid in byOid && byOid[nodes[n].oid] == n;
      if found.Some? {
        parent := parent[n := found];
        if registered { children := children[found.value := children[found.value] + [n]]; }
      }
      if parent[n] == None && registered {
        roots := roots + [n];
      }
      assert parent == parent0[n := found];
      PlaceKeeps(nodes, byOid, parent0, children0, roots0, done, n, parent, children, roots);
    }
  }

  lemma FinishPlacement(nodes: seq<Node>, byOid: map<Oid, nat>, parent: seq<Option<nat>>, children: seq<seq<nat>>, roots: seq<nat>)
    requires Resolvable(nodes) && Registers(nodes, byOid, |nodes|)
    requires PlacedUpTo(nodes, byOid, parent, children, roots, SortByOid(nodes, Claimants(nodes, |nodes|)))
    ensures Ranked(nodes, byOid, Placement(nodes, byOid)) && Linked(nodes, byOid, Placement(nodes, byOid), children, roots)
    ensures |parent| == |nodes| && (forall n :: 0 <= n < |nodes| ==> parent[n] == Up(nodes, byOid, n))
  {
    PlacementRanked(nodes, byOid);
    SortedClaimants(nodes);
    hide Kids, Winners, SortByOid, Claimants, Ranked, Registers;
    forall n | 0 <= n < |nodes| && nodes[n].oid == [] ensures Up(nodes, byOid, n) == None {}
  }

  lemma UpInRange(nodes: seq<Node>, byOid: map<Oid, nat>, n: nat)
    requires n < |nodes| && Registers(nodes, byOid, |nodes|)
    ensures Up(nodes, byOid, n).Some? ==> Up(nodes, byOid, n).value < |nodes|
  {
    NearestIs(byOid, nodes[n].oid);
  }

  // ---------------------------------------------------------------- kinds

  /** A scalar below a table is its row, a scalar below a row is a column of it. */
  function Classified(own: Kind, up: Option<nat>, kind: seq<Kind>): Kind
    requires up.Some? ==> up.value < |kind|
  {
    if own == Scalar && up.Some? then
      match kind[up.value]
      case Table => Row
      case Row => Column
      case _ => own
    else own
  }

  /** Only scalars are reclassified, by the final kind of the node above: below a table a row, below a row a
      column. */
  lemma ClassifiedIs(nodes: seq<Node>, byOid: map<Oid, nat>, kind: seq<Kind>, n: nat)
    requires Consistent(nodes, byOid, kind) && n < |nodes|
    ensures nodes[n].kind != Scalar || Up(nodes, byOid, n) == None ==> kind[n] == nodes[n].kind
    ensures nodes[n].kind == Scalar && Up(nodes, byOid, n).Some? ==>
      var above := kind[Up(nodes, byOid, n).value];
      && (kind[n] == Row <==> above == Table) && (kind[n] == Column <==> above == Row)
      && (above != Table && above != Row ==> kind[n] == Scalar)
  {
  }

  /** Every node's kind is read off its own declaration and its parent's final kind. */
  ghost predicate Consistent(nodes: seq<Node>, byOid: map<Oid, nat>, kind: seq<Kind>)
  {
    && |kind| == |nodes|
    && forall n :: 0 <= n < |nodes| ==>
         && (Up(nodes, byOid, n).Some? ==> Up(nodes, byOid, n).value < |nodes|)
         && kind[n] == Classified(nodes[n].kind, Up(nodes, byOid, n), kind)
  }

  /** Which determines all kinds, whatever order they are computed in. */
  lemma {:induction false} KindsAreUnique(nodes: seq<Node>, byOid: map<Oid, nat>, a: seq<Kind>, b: seq<Kind>, n: nat)
    requires Registers(nodes, byOid, |nodes|) && n < |nodes|
    requires Consistent(nodes, byOid, a) && Consistent(nodes, byOid, b)
    ensures a[n] == b[n]
    decreases |nodes[n].oid|
  {
    NearestIs(byOid, nodes[n].oid);
    match Up(nodes, byOid, n)
    case Some(p) => KindsAreUnique(nodes, byOid, a, b, p);
    case None =>
  }

  /** Kinds after the nodes of `done` have been looked at. */
  ghost predicate KindsUpTo(nodes: seq<Node>, byOid: map<Oid, nat>, kind: seq<Kind>, done: seq<nat>)
  {
    && |kind| == |nodes|
    && forall n :: 0 <= n < |nodes| ==>
         && (Up(nodes, byOid, n).Some? ==> Up(nodes, byOid, n).value < |nodes|)
         && kind[n] == if n in done then Classified(nodes[n].kind, Up(nodes, byOid, n), kind) else nodes[n].kind
  }

  /** In sorted order a parent has been looked at before its children. */
  lemma ParentBefore(nodes: seq<Node>, byOid: map<Oid, nat>, sorted: seq<nat>, i: nat, j: nat)
    requires Registers(nodes, byOid, |nodes|) && SortedByOid(nodes, sorted) && i < |sorted| && j < |sorted|
    requires Up(nodes, byOid, sorted[i]) == Some(sorted[j])
    ensures j < i
  {
    NearestIs(byOid, nodes[sorted[i]].oid);
    var a, b := nodes[sorted[j]].oid, nodes[sorted[i]].oid;
    assert Under(a, b);
    UnderIsLess(a, b);
    LessTotal(a, b);
  }

  lemma KindStep(nodes: seq<Node>, byOid: map<Oid, nat>, kind: seq<Kind>, sorted: seq<nat>, i: nat)
    requires Registers(nodes, byOid, |nodes|) && SortedByOid(nodes, sorted) && Distinct(sorted) && i < |sorted|
    requires KindsUpTo(nodes, byOid, kind, sorted[..i])
    ensures var n := sorted[i];
      KindsUpTo(nodes, byOid, kind[n := Classified(kind[n], Up(nodes, byOid, n), kind)], sorted[..i + 1])
  {
    var n := sorted[i];
    var kind' := kind[n := Classified(kind[n], Up(nodes, byOid, n), kind)];
    NextIsNew(nodes, sorted, i);
    forall m | 0 <= m < |nodes|
      ensures kind'[m] == if m in sorted[..i + 1] then Classified(nodes[m].kind, Up(nodes, byOid, m), kind') else nodes[m].kind
    {
      assert m in sorted[..i + 1] <==> m in sorted[..i] || m == n;
      if m in sorted[..i] && Up(nodes, byOid, m) == Some(n) {
        var k :| 0 <= k < i && sorted[k] == m;
        ParentBefore(nodes, byOid, sorted, k, i);
      }
      if m == n && Up(nodes, byOid, n) == Some(n) { ParentBefore(nodes, byOid, sorted, i, i); }
    }
  }

  lemma KindsBegin(nodes: seq<Node>, byOid: map<Oid, nat>, kind: seq<Kind>)
    requires Registers(nodes, byOid, |nodes|) && |kind| == |nodes| && forall n :: 0 <= n < |nodes| ==> kind[n] == nodes[n].kind
    ensures KindsUpTo(nodes, byOid, kind, [])
  {
    forall n: nat | n < |nodes| ensures Up(nodes, byOid, n).Some? ==> Up(nodes, byOid, n).value < |nodes| { UpInRange(nodes, byOid, n); }
  }

  lemma InRange(nodes: seq<Node>, byOid: map<Oid, nat>, kind: seq<Kind>, ordered: seq<nat>, i: nat)
    requires SortedByOid(nodes, ordered) && i < |ordered| && KindsUpTo(nodes, byOid, kind, ordered[..i])
    ensures |kind| == |nodes| && ordered[i] < |nodes|
    ensures Up(nodes, byOid, ordered[i]).Some? ==> Up(nodes, byOid, ordered[i]).value < |kind|
    ensures kind[ordered[i] := kind[ordered[i]]] == kind
  {
  }

  lemma AllClassified(nodes: seq<Node>, byOid: map<Oid, nat>, kind: seq<Kind>, ordered: seq<nat>)
    requires forall n: nat :: n in ordered <==> n < |nodes| && nodes[n].oid != []
    requires KindsUpTo(nodes, byOid, kind, ordered[..|ordered|])
    ensures Consistent(nodes, byOid, kind)
  {
    assert ordered[..|ordered|] == ordered;
    forall n: nat | n < |nodes| && nodes[n].oid == [] ensures Up(nodes, byOid, n) == None {}
    hide Up;
  }
}
