/** Resolving the object identifier a declaration is assigned.

    A declaration names a parent and appends arcs to it, so following the parents through any
    number of modules gives a chain.  `Meaning` says what a chain is worth without following it in
    any order; the memoized, recursive resolver below is proved to compute exactly that. */
module OidResolver {
  import opened Oids
  import opened Common

  /** One element of an assignment's brace group. */
  datatype Arc = Arc(name: string, num: nat, hasNum: bool)

  datatype Notification = Notification(enterprise: string, suffix: seq<int>)

  /** A declaration as parsed.  A value is missing when it is absent or malformed; a withheld
      declaration is one the parser could not accept, but whose value it read. */
  datatype Decl =
    | Assigned(value: Option<seq<Arc>>, withheld: bool)
    | Trap(notification: Option<Notification>)

  datatype Import = Import(from: string, symbols: seq<string>)

  datatype Module = Module(name: string, decls: map<string, Decl>, imports: seq<Import>)

  datatype Key = Key(owner: nat, name: string)

  const MaxOidLength := 128
  const MaxSubIdentifier := 4294967295

  const WellKnownRoots: map<string, nat> :=
    map["ccitt" := 0, "iso" := 1, "joint-iso-ccitt" := 2, "joint-iso-itu-t" := 2,
        "itu-t" := 0, "itu-r" := 0, "itu" := 0, "joint-iso-ccitt2" := 2]

  // ---------------------------------------------------------------- where a symbol comes from

  predicate Declares(mods: seq<Module>, m: nat, name: string)
  {
    m < |mods| && name in mods[m].decls
  }

  /** The module loaded under a name. */
  function ByName(mods: seq<Module>, name: string, from: nat := 0): (r: Option<nat>)
    requires from <= |mods|
    ensures r.Some? ==> r.value < |mods| && mods[r.value].name == name
    decreases |mods| - from
  {
    if from == |mods| then None else if mods[from].name == name then Some(from) else ByName(mods, name, from + 1)
  }

  /** Whether an import gives module `r` as the source of `name`. */
  predicate Supplies(mods: seq<Module>, imp: Import, name: string)
  {
    name in imp.symbols && ByName(mods, imp.from).Some? && name in mods[ByName(mods, imp.from).value].decls
  }

  /** The module `m` takes a name from: itself, else its first import that supplies the name, else
      the first other loaded module that declares it. */
  ghost predicate TakesFrom(mods: seq<Module>, m: nat, name: string, target: nat)
    requires m < |mods|
  {
    var imports := mods[m].imports;
    if name in mods[m].decls then target == m
    else if exists i :: 0 <= i < |imports| && Supplies(mods, imports[i], name) then
      exists i :: 0 <= i < |imports| && Supplies(mods, imports[i], name) && ByName(mods, imports[i].from) == Some(target)
                  && forall j :: 0 <= j < i ==> !Supplies(mods, imports[j], name)
    else Declares(mods, target, name) && forall j :: 0 <= j < target ==> !Declares(mods, j, name)
  }

  lemma TakesFromIsUnique(mods: seq<Module>, m: nat, name: string, a: nat, b: nat)
    requires m < |mods| && TakesFrom(mods, m, name, a) && TakesFrom(mods, m, name, b)
    ensures a == b && Declares(mods, a, name)
  {
    var imports := mods[m].imports;
    if name !in mods[m].decls {
      if exists i :: 0 <= i < |imports| && Supplies(mods, imports[i], name) {
        var i :| 0 <= i < |imports| && Supplies(mods, imports[i], name) && ByName(mods, imports[i].from) == Some(a)
                 && forall j :: 0 <= j < i ==> !Supplies(mods, imports[j], name);
        var k :| 0 <= k < |imports| && Supplies(mods, imports[k], name) && ByName(mods, imports[k].from) == Some(b)
                 && forall j :: 0 <= j < k ==> !Supplies(mods, imports[j], name);
        assert i == k;
      }
    }
  }

  ghost function Source(mods: seq<Module>, m: nat, name: string): (r: Option<nat>)
    requires m < |mods|
    ensures r.Some? ==> TakesFrom(mods, m, name, r.value) && Declares(mods, r.value, name)
    ensures r.None? ==> forall t :: !TakesFrom(mods, m, name, t)
  {
    if exists t :: TakesFrom(mods, m, name, t) then
      var t :| TakesFrom(mods, m, name, t);
      TakesFromIsUnique(mods, m, name, t, t);
      Some(t)
    else None
  }

  // ---------------------------------------------------------------- what a declaration links to

  datatype Base = NoBase | Root(arc: nat) | Named(key: Key)

  /** What the first arc of a value names. */
  ghost function BaseOf(mods: seq<Module>, m: nat, arc: Arc): Base
    requires m < |mods|
  {
    if arc.name == "" then (if arc.hasNum then Root(arc.num) else NoBase)
    else if arc.name in WellKnownRoots then Root(WellKnownRoots[arc.name])
    else match Source(mods, m, arc.name)
      case None => NoBase
      case Some(t) => Named(Key(t, arc.name))
  }

  predicate AllNumbered(arcs: seq<Arc>)
  {
    forall i :: 0 <= i < |arcs| ==> arcs[i].hasNum
  }

  function Numbers(arcs: seq<Arc>): seq<nat>
  {
    seq(|arcs|, i requires 0 <= i < |arcs| => arcs[i].num)
  }

  predicate SubIdentifiers(suffix: seq<int>)
  {
    forall i :: 0 <= i < |suffix| ==> 0 <= suffix[i] <= MaxSubIdentifier
  }

  function Nats(suffix: seq<int>): seq<nat>
    requires SubIdentifiers(suffix)
  {
    seq(|suffix|, i requires 0 <= i < |suffix| => suffix[i])
  }

  function FirstArc(d: Decl): Option<Arc>
  {
    match d
    case Assigned(Some(arcs), _) => if arcs != [] then Some(arcs[0]) else None
    case Trap(Some(n)) => if n.enterprise != "" then Some(Arc(n.enterprise, 0, false)) else None
    case _ => None
  }

  /** The arc a declaration hangs on and the arcs it appends; nothing for a malformed one. */
  function Shape(d: Decl): Option<(Arc, seq<nat>)>
  {
    match d
    case Assigned(Some(arcs), _) =>
      if arcs != [] && AllNumbered(arcs[1..]) then Some((arcs[0], Numbers(arcs[1..]))) else None
    case Trap(Some(n)) =>
      if n.enterprise != "" && SubIdentifiers(n.suffix) then Some((Arc(n.enterprise, 0, false), Nats(n.suffix))) else None
    case _ => None
  }

  datatype Link = Broken | Anchored(root: nat, arcs: seq<nat>) | Below(parent: Key, arcs: seq<nat>)

  ghost function LinkOf(mods: seq<Module>, k: Key): Link
  {
    if !Declares(mods, k.owner, k.name) || Shape(mods[k.owner].decls[k.name]).None? then Broken
    else
      var (first, arcs) := Shape(mods[k.owner].decls[k.name]).value;
      match BaseOf(mods, k.owner, first)
      case NoBase => Broken
      case Root(r) => Anchored(r, arcs)
      case Named(p) => Below(p, arcs)
  }

  /** The declaration `k` hangs on, whether or not the rest of its value is well formed. */
  ghost function HangsOn(mods: seq<Module>, k: Key): Option<Key>
  {
    if !Declares(mods, k.owner, k.name) then None
    else match FirstArc(mods[k.owner].decls[k.name])
      case None => None
      case Some(first) => match BaseOf(mods, k.owner, first) case Named(p) => Some(p) case _ => None
  }

  predicate Withheld(mods: seq<Module>, k: Key)
  {
    Declares(mods, k.owner, k.name) && mods[k.owner].decls[k.name].Assigned? && mods[k.owner].decls[k.name].withheld
  }

  predicate IsTrap(mods: seq<Module>, k: Key)
  {
    Declares(mods, k.owner, k.name) && mods[k.owner].decls[k.name].Trap?
  }

  // ---------------------------------------------------------------- what a chain is worth

  /** Declarations from `chain[0]` up to one anchored at a root, each hanging on the next. */
  ghost predicate IsChain(mods: seq<Module>, chain: seq<Key>)
  {
    && chain != []
    && (forall i :: 0 <= i < |chain| - 1 ==> LinkOf(mods, chain[i]).Below? && LinkOf(mods, chain[i]).parent == chain[i + 1])
    && LinkOf(mods, chain[|chain| - 1]).Anchored?
  }

  /** The root, and the arcs of every declaration from the top of the chain down. */
  ghost function ChainOid(mods: seq<Module>, chain: seq<Key>): Oid
    requires IsChain(mods, chain)
    decreases |chain|
  {
    if |chain| == 1 then [LinkOf(mods, chain[0]).root] + LinkOf(mods, chain[0]).arcs
    else
      assert IsChain(mods, chain[1..]) by { ChainTail(mods, chain); }
      ChainOid(mods, chain[1..]) + LinkOf(mods, chain[0]).arcs
  }

  lemma ChainTail(mods: seq<Module>, chain: seq<Key>)
    requires IsChain(mods, chain) && |chain| > 1
    ensures IsChain(mods, chain[1..])
  {
    var rest := chain[1..];
    forall i | 0 <= i < |rest| - 1 ensures LinkOf(mods, rest[i]).Below? && LinkOf(mods, rest[i]).parent == rest[i + 1] {
      assert rest[i] == chain[i + 1];
    }
  }

  /** No declaration on the chain was withheld. */
  ghost predicate Trusted(mods: seq<Module>, chain: seq<Key>)
  {
    forall i :: 0 <= i < |chain| ==> !Withheld(mods, chain[i])
  }

  /** A trap needs an enterprise that counts as resolved. */
  ghost predicate TrapsResolved(mods: seq<Module>, chain: seq<Key>)
  {
    forall i :: 0 <= i < |chain| && IsTrap(mods, chain[i]) ==> Trusted(mods, chain[i + 1..])
  }

  /** A chain that gives `k` its identifier. */
  ghost predicate Gives(mods: seq<Module>, k: Key, chain: seq<Key>)
  {
    && IsChain(mods, chain) && chain[0] == k
    && |ChainOid(mods, chain)| <= MaxOidLength && TrapsResolved(mods, chain)
  }

  /** The identifier of a declaration, empty when nothing gives it one, and whether it counts as
      resolved. */
  ghost function Meaning(mods: seq<Module>, k: Key): (Oid, bool)
  {
    if exists chain :: Gives(mods, k, chain)
    then var chain :| Gives(mods, k, chain); (ChainOid(mods, chain), Trusted(mods, chain))
    else ([], false)
  }

  /** A chain is determined by where it starts. */
  lemma {:induction false} ChainIsUnique(mods: seq<Module>, a: seq<Key>, b: seq<Key>)
    requires IsChain(mods, a) && IsChain(mods, b) && a[0] == b[0]
    ensures a == b
    decreases |a|
  {
    if |a| > 1 && |b| > 1 {
      ChainTail(mods, a);
      ChainTail(mods, b);
      assert a[1..][0] == a[1] && b[1..][0] == b[1];
      ChainIsUnique(mods, a[1..], b[1..]);
      assert a == [a[0]] + a[1..] && b == [b[0]] + b[1..];
    }
  }

  lemma {:induction false} MeaningIs(mods: seq<Module>, k: Key, chain: seq<Key>)
    requires Gives(mods, k, chain)
    ensures Meaning(mods, k) == (ChainOid(mods, chain), Trusted(mods, chain)) && Meaning(mods, k).0 != []
  {
    assert exists other :: Gives(mods, k, other) && Meaning(mods, k) == (ChainOid(mods, other), Trusted(mods, other));
    var other :| Gives(mods, k, other) && Meaning(mods, k) == (ChainOid(mods, other), Trusted(mods, other));
    assert IsChain(mods, other);
    ChainIsUnique(mods, chain, other);
    ChainOidNonEmpty(mods, chain);
  }

  lemma {:induction false} ChainOidNonEmpty(mods: seq<Module>, chain: seq<Key>)
    requires IsChain(mods, chain)
    ensures ChainOid(mods, chain) != []
    decreases |chain|
  {
    if |chain| > 1 {
      ChainTail(mods, chain);
      ChainOidNonEmpty(mods, chain[1..]);
    }
  }

  /** Element `i` of a round, which closes on its first one. */
  function Round(cycle: seq<Key>, i: nat): Key
    requires cycle != [] && i <= |cycle|
  {
    if i == |cycle| then cycle[0] else cycle[i]
  }

  ghost predicate IsCycle(mods: seq<Module>, cycle: seq<Key>)
  {
    && cycle != []
    && forall i :: 0 <= i < |cycle| ==> HangsOn(mods, cycle[i]) == Some(Round(cycle, i + 1))
  }

  /** A declaration that reaches itself gets no identifier. */
  lemma CycleMeansNothing(mods: seq<Module>, cycle: seq<Key>)
    requires IsCycle(mods, cycle)
    ensures Meaning(mods, cycle[0]) == ([], false)
  {
    forall chain ensures !Gives(mods, cycle[0], chain) { CycleHasNoChain(mods, cycle, chain); }
  }

  lemma CycleHasNoChain(mods: seq<Module>, cycle: seq<Key>, chain: seq<Key>)
    requires IsCycle(mods, cycle)
    ensures !(IsChain(mods, chain) && chain[0] == cycle[0])
  {
    if IsChain(mods, chain) && chain[0] == cycle[0] {
      FollowsCycle(mods, cycle, chain, |cycle|);
      var rest := ChainFrom(mods, chain, |cycle|);
      ChainIsUnique(mods, chain, rest);
    }
  }

  lemma {:induction false} FollowsCycle(mods: seq<Module>, cycle: seq<Key>, chain: seq<Key>, n: nat)
    requires IsCycle(mods, cycle) && IsChain(mods, chain) && chain[0] == cycle[0] && n <= |cycle|
    ensures n < |chain| && chain[n] == Round(cycle, n)
  {
    if n > 0 {
      FollowsCycle(mods, cycle, chain, n - 1);
      assert HangsOn(mods, cycle[n - 1]) == Some(Round(cycle, n));
      LinkHangs(mods, chain[n - 1]);
      hide LinkOf, HangsOn;
      assert n - 1 < |chain| - 1;
      assert LinkOf(mods, chain[n - 1]).parent == chain[n - 1 + 1];
    }
  }

  lemma LinkHangs(mods: seq<Module>, k: Key)
    ensures match LinkOf(mods, k) case Below(p, _) => HangsOn(mods, k) == Some(p) case Anchored(_, _) => HangsOn(mods, k).None? case _ => true
  {
  }

  lemma {:induction false} ChainFrom(mods: seq<Module>, chain: seq<Key>, n: nat) returns (rest: seq<Key>)
    requires IsChain(mods, chain) && n < |chain|
    ensures IsChain(mods, rest) && rest == chain[n..]
  {
    rest := chain;
    if n > 0 {
      ChainTail(mods, chain);
      rest := ChainFrom(mods, chain[1..], n - 1);
    }
  }

  // ---------------------------------------------------------------- what a chain spells, arc by arc

  /** The registration roots and their numbers. */
  predicate KnownRoot(name: string, arc: nat)
  {
    || (arc == 0 && (name == "ccitt" || name == "itu-t" || name == "itu-r" || name == "itu"))
    || (arc == 1 && name == "iso")
    || (arc == 2 && (name == "joint-iso-ccitt" || name == "joint-iso-itu-t" || name == "joint-iso-ccitt2"))
  }

  lemma KnownRootsAre(name: string)
    ensures name in WellKnownRoots <==> exists arc: nat :: KnownRoot(name, arc)
    ensures forall arc: nat :: KnownRoot(name, arc) <==> name in WellKnownRoots && WellKnownRoots[name] == arc
  {
    if name in WellKnownRoots { assert KnownRoot(name, WellKnownRoots[name]); }
  }

  /** The first arc of a value stands for `base`: a number for itself, a registration root for its number,
      and any other name for what the rest of the chain spells, which starts at the declaration the name is
      taken from. */
  ghost predicate StandsFor(mods: seq<Module>, m: nat, arc: Arc, rest: seq<Key>, base: Oid)
    decreases |rest|, 1
  {
    if arc.name == "" then rest == [] && arc.hasNum && base == [arc.num]
    else if exists r: nat :: KnownRoot(arc.name, r) then rest == [] && |base| == 1 && KnownRoot(arc.name, base[0])
    else rest != [] && m < |mods| && rest[0].name == arc.name && TakesFrom(mods, m, arc.name, rest[0].owner) && Spells(mods, rest, base)
  }

  /** The arcs of a value after the first are the last ones of an identifier, in order. */
  predicate EndsWithArcs(oid: Oid, arcs: seq<Arc>)
    requires 0 < |arcs| <= |oid|
  {
    forall j :: 1 <= j < |arcs| ==> arcs[j].hasNum && oid[|oid| - |arcs| + j] == arcs[j].num
  }

  /** So are the arcs of a trap's suffix. */
  predicate EndsWithSuffix(oid: Oid, suffix: seq<int>)
    requires |suffix| <= |oid|
  {
    forall j :: 0 <= j < |suffix| ==> 0 <= suffix[j] < 0x1_0000_0000 && oid[|oid| - |suffix| + j] == suffix[j]
  }

  /** A declaration followed by those it hangs on, one after the other, spells an identifier: what its first
      arc stands for, and then the number of each further arc, or of each arc of a trap's suffix, in order. */
  ghost predicate Spells(mods: seq<Module>, chain: seq<Key>, oid: Oid)
    decreases |chain|, 0
  {
    && chain != [] && Declares(mods, chain[0].owner, chain[0].name)
    && match mods[chain[0].owner].decls[chain[0].name]
       case Assigned(Some(arcs), _) =>
         && 0 < |arcs| <= |oid| && EndsWithArcs(oid, arcs)
         && StandsFor(mods, chain[0].owner, arcs[0], chain[1..], oid[..|oid| - |arcs| + 1])
       case Trap(Some(trap)) =>
         && trap.enterprise != "" && |trap.suffix| <= |oid| && EndsWithSuffix(oid, trap.suffix)
         && StandsFor(mods, chain[0].owner, Arc(trap.enterprise, 0, false), chain[1..], oid[..|oid| - |trap.suffix|])
       case _ => false
  }

  lemma SpellsFrom(mods: seq<Module>, chain: seq<Key>, first: Arc, arcs: seq<nat>, base: Oid)
    requires chain != [] && Declares(mods, chain[0].owner, chain[0].name)
    requires Shape(mods[chain[0].owner].decls[chain[0].name]) == Some((first, arcs))
    requires base != [] && StandsFor(mods, chain[0].owner, first, chain[1..], base)
    ensures Spells(mods, chain, base + arcs)
  {
    hide StandsFor;
    var oid := base + arcs;
    assert oid[..|base|] == base;
    match mods[chain[0].owner].decls[chain[0].name]
    case Assigned(Some(all), _) =>
      assert arcs == Numbers(all[1..]) && AllNumbered(all[1..]);
      forall j | 1 <= j < |all| ensures all[j].hasNum && oid[|oid| - |all| + j] == all[j].num {
        assert all[1..][j - 1] == all[j];
      }
    case Trap(Some(trap)) =>
      assert arcs == Nats(trap.suffix);
  }

  /** What a chain is worth is what it spells. */
  lemma {:induction false} ChainSpells(mods: seq<Module>, chain: seq<Key>)
    requires IsChain(mods, chain)
    ensures Spells(mods, chain, ChainOid(mods, chain))
    decreases |chain|
  {
    var k := chain[0];
    if |chain| == 1 {
      var shape := RootOf(mods, k);
      var (first, arcs) := shape;
      assert chain[1..] == [];
      SpellsFrom(mods, chain, first, arcs, [LinkOf(mods, k).root]);
    } else {
      ChainTail(mods, chain);
      ChainSpells(mods, chain[1..]);
      assert chain[1..][0] == LinkOf(mods, k).parent;
      var shape := ParentOf(mods, k);
      var (first, arcs) := shape;
      ChainOidNonEmpty(mods, chain[1..]);
      assert StandsFor(mods, k.owner, first, chain[1..], ChainOid(mods, chain[1..]));
      SpellsFrom(mods, chain, first, arcs, ChainOid(mods, chain[1..]));
    }
  }

  lemma RootOf(mods: seq<Module>, k: Key) returns (shape: (Arc, seq<nat>))
    requires LinkOf(mods, k).Anchored?
    ensures Declares(mods, k.owner, k.name) && Shape(mods[k.owner].decls[k.name]) == Some(shape) && shape.1 == LinkOf(mods, k).arcs
    ensures StandsFor(mods, k.owner, shape.0, [], [LinkOf(mods, k).root])
  {
    shape := Shape(mods[k.owner].decls[k.name]).value;
    KnownRootsAre(shape.0.name);
    hide Shape, KnownRoot;
  }

  lemma ParentOf(mods: seq<Module>, k: Key) returns (shape: (Arc, seq<nat>))
    requires LinkOf(mods, k).Below?
    ensures Declares(mods, k.owner, k.name) && Shape(mods[k.owner].decls[k.name]) == Some(shape) && shape.1 == LinkOf(mods, k).arcs
    ensures var p := LinkOf(mods, k).parent;
      shape.0.name != "" && p.name == shape.0.name && TakesFrom(mods, k.owner, p.name, p.owner) && !exists r: nat :: KnownRoot(shape.0.name, r)
  {
    shape := Shape(mods[k.owner].decls[k.name]).value;
    KnownRootsAre(shape.0.name);
    hide Shape, KnownRoot, TakesFrom;
  }

  /** So a declaration that gets an identifier gets one that it spells. */
  lemma MeaningIsSpelled(mods: seq<Module>, k: Key) returns (chain: seq<Key>)
    ensures Meaning(mods, k).0 != [] ==> chain != [] && chain[0] == k && Spells(mods, chain, Meaning(mods, k).0)
  {
    chain := [];
    if exists chain :: Gives(mods, k, chain) {
      chain :| Gives(mods, k, chain);
      MeaningIs(mods, k, chain);
      ChainSpells(mods, chain);
    }
  }

  // ---------------------------------------------------------------- one step of a chain

  /** What the arc a declaration hangs on is worth. */
  ghost function BaseMeaning(mods: seq<Module>, base: Base): (Oid, bool)
  {
    match base
    case NoBase => ([], false)
    case Root(r) => ([r], true)
    case Named(p) => Meaning(mods, p)
  }

  /** A well-formed declaration is worth its base extended by its own arcs, unless the base is
      empty, the result is too long, or it is a trap whose base does not count as resolved. */
  lemma MeaningStep(mods: seq<Module>, k: Key)
    requires Declares(mods, k.owner, k.name)
    ensures var shape := Shape(mods[k.owner].decls[k.name]);
      Meaning(mods, k) ==
        if shape.None? then ([], false)
        else
          var (oid, ok) := BaseMeaning(mods, BaseOf(mods, k.owner, shape.value.0));
          if oid == [] || |oid + shape.value.1| > MaxOidLength || (IsTrap(mods, k) && !ok) then ([], false)
          else (oid + shape.value.1, ok && !Withheld(mods, k))
  {
    match LinkOf(mods, k)
    case Broken => forall chain ensures !Gives(mods, k, chain) {}
    case Anchored(r, arcs) => AnchoredStep(mods, k);
    case Below(p, arcs) => BelowStep(mods, k);
  }

  lemma AnchoredStep(mods: seq<Module>, k: Key)
    requires LinkOf(mods, k).Anchored?
    ensures var l := LinkOf(mods, k);
      Meaning(mods, k) == if |[l.root] + l.arcs| > MaxOidLength then ([], false) else ([l.root] + l.arcs, !Withheld(mods, k))
  {
    var chain := [k];
    assert IsChain(mods, chain) && TrapsResolved(mods, chain);
    forall other | IsChain(mods, other) && other[0] == k ensures other == chain { ChainIsUnique(mods, chain, other); }
    if Gives(mods, k, chain) { MeaningIs(mods, k, chain); }
  }

  lemma BelowStep(mods: seq<Module>, k: Key)
    requires LinkOf(mods, k).Below?
    ensures var l := LinkOf(mods, k);
      var (oid, ok) := Meaning(mods, l.parent);
      Meaning(mods, k) ==
        if oid == [] || |oid + l.arcs| > MaxOidLength || (IsTrap(mods, k) && !ok) then ([], false)
        else (oid + l.arcs, ok && !Withheld(mods, k))
  {
    var l := LinkOf(mods, k);
    if exists chain :: Gives(mods, k, chain) {
      var chain :| Gives(mods, k, chain);
      GivesTail(mods, k, chain);
      MeaningIs(mods, k, chain);
      MeaningIs(mods, l.parent, chain[1..]);
    } else if exists rest :: Gives(mods, l.parent, rest) {
      var rest :| Gives(mods, l.parent, rest);
      MeaningIs(mods, l.parent, rest);
      GivesCons(mods, k, rest);
    }
  }

  lemma TrustedCons(mods: seq<Module>, chain: seq<Key>)
    requires chain != []
    ensures Trusted(mods, chain) <==> !Withheld(mods, chain[0]) && Trusted(mods, chain[1..])
  {
    if Trusted(mods, chain[1..]) {
      forall i | 0 < i < |chain| ensures !Withheld(mods, chain[i]) { assert chain[i] == chain[1..][i - 1]; }
    }
  }

  lemma TrapsCons(mods: seq<Module>, chain: seq<Key>)
    requires chain != []
    ensures TrapsResolved(mods, chain) <==> (IsTrap(mods, chain[0]) ==> Trusted(mods, chain[1..])) && TrapsResolved(mods, chain[1..])
  {
    var rest := chain[1..];
    forall i | 0 <= i < |rest| ensures rest[i] == chain[i + 1] && rest[i + 1..] == chain[i + 2..] {}
    if (IsTrap(mods, chain[0]) ==> Trusted(mods, rest)) && TrapsResolved(mods, rest) {
      forall i | 0 <= i < |chain| && IsTrap(mods, chain[i]) ensures Trusted(mods, chain[i + 1..]) {
        if i > 0 { assert rest[i - 1] == chain[i]; }
      }
    }
    if TrapsResolved(mods, chain) {
      forall i | 0 <= i < |rest| && IsTrap(mods, rest[i]) ensures Trusted(mods, rest[i + 1..]) {
        assert IsTrap(mods, chain[i + 1]);
      }
    }
  }

  lemma GivesTail(mods: seq<Module>, k: Key, chain: seq<Key>)
    requires LinkOf(mods, k).Below? && Gives(mods, k, chain)
    ensures Gives(mods, LinkOf(mods, k).parent, chain[1..])
    ensures ChainOid(mods, chain) == ChainOid(mods, chain[1..]) + LinkOf(mods, k).arcs
    ensures Trusted(mods, chain) <==> !Withheld(mods, k) && Trusted(mods, chain[1..])
    ensures IsTrap(mods, k) ==> Trusted(mods, chain[1..])
  {
    ChainTail(mods, chain);
    TrustedCons(mods, chain);
    TrapsCons(mods, chain);
  }

  lemma GivesCons(mods: seq<Module>, k: Key, rest: seq<Key>)
    requires LinkOf(mods, k).Below? && Gives(mods, LinkOf(mods, k).parent, rest)
    ensures Gives(mods, k, [k] + rest) <==>
      |ChainOid(mods, rest) + LinkOf(mods, k).arcs| <= MaxOidLength && (IsTrap(mods, k) ==> Trusted(mods, rest))
  {
    var chain := [k] + rest;
    assert chain[1..] == rest;
    assert IsChain(mods, chain);
    TrapsCons(mods, chain);
  }

  // ---------------------------------------------------------------- the resolver

  datatype Memo = Busy | Done(oid: Oid, ok: bool)

  /** The declarations being worked on, each hanging on the next, the last one on `k`. */
  ghost predicate Calls(mods: seq<Module>, stack: seq<Key>, k: Key)
  {
    forall i :: 0 <= i < |stack| ==> HangsOn(mods, stack[i]) == Some(CallAt(stack, k, i + 1))
  }

  function CallAt(stack: seq<Key>, k: Key, i: nat): Key
    requires i <= |stack|
  {
    if i == |stack| then k else stack[i]
  }

  lemma PushCall(mods: seq<Module>, stack: seq<Key>, k: Key, target: Key)
    requires stack != [] && stack[|stack| - 1] == k && Calls(mods, stack[..|stack| - 1], k) && HangsOn(mods, k) == Some(target)
    ensures Calls(mods, stack, target)
  {
    var below := stack[..|stack| - 1];
    forall i | 0 <= i < |stack| ensures HangsOn(mods, stack[i]) == Some(CallAt(stack, target, i + 1)) {
      if i < |below| {
        assert HangsOn(mods, below[i]) == Some(CallAt(below, k, i + 1));
        assert below[i] == stack[i];
      }
    }
  }

  /** Finished entries hold the meaning; unfinished ones are the calls in progress. */
  ghost predicate MemoOk(mods: seq<Module>, memo: map<Key, Memo>, stack: seq<Key>)
  {
    && (forall k :: k in memo && memo[k].Done? ==> (memo[k].oid, memo[k].ok) == Meaning(mods, k))
    && (forall k :: k in memo && memo[k].Busy? <==> k in stack)
  }

  ghost predicate Grows(before: map<Key, Memo>, after: map<Key, Memo>)
  {
    forall k :: k in before ==> k in after && after[k] == before[k]
  }

  lemma MemoBegin(mods: seq<Module>, memo: map<Key, Memo>, stack: seq<Key>, k: Key)
    requires MemoOk(mods, memo, stack) && k !in memo
    ensures MemoOk(mods, memo[k := Busy], stack + [k])
  {
  }

  lemma MemoEnd(mods: seq<Module>, memo: map<Key, Memo>, stack: seq<Key>, k: Key, oid: Oid, ok: bool)
    requires MemoOk(mods, memo, stack + [k]) && k !in stack && (oid, ok) == Meaning(mods, k)
    ensures MemoOk(mods, memo[k := Done(oid, ok)], stack)
  {
    hide Meaning;
    var done := memo[k := Done(oid, ok)];
    forall q ensures q in done && done[q].Busy? <==> q in stack {
      assert q in stack + [k] <==> q in stack || q == k;
    }
  }

  lemma GrowsEnd(before: map<Key, Memo>, memo: map<Key, Memo>, k: Key, oid: Oid, ok: bool)
    requires k !in before && Grows(before[k := Busy], memo)
    ensures Grows(before, memo[k := Done(oid, ok)])
  {
    forall q | q in before ensures q in memo && memo[q] == before[q] && q != k {
      assert q in before[k := Busy] && before[k := Busy][q] == before[q];
    }
  }

  class Resolver {
    const mods: seq<Module>
    var memo: map<Key, Memo>

    constructor (mods: seq<Module>)
      ensures this.mods == mods && memo == map[] && Valid([])
    {
      this.mods, memo := mods, map[];
    }

    ghost predicate Valid(stack: seq<Key>)
      reads this
    {
      MemoOk(mods, memo, stack)
    }

    ghost function Declared(): set<Key>
    {
      set m, name | 0 <= m < |mods| && name in mods[m].decls :: Key(m, name)
    }

    /** The module a name comes from. */
    method LookupDecl(m: nat, name: string) returns (target: Option<nat>)
      requires m < |mods|
      ensures target == Source(mods, m, name)
      ensures name in mods[m].decls ==> target == Some(m)
      ensures target.None? ==> forall t: nat :: !Declares(mods, t, name)
      ensures target.Some? ==> target.value < |mods| && name in mods[target.value].decls
    {
      if name in mods[m].decls {
        assert TakesFrom(mods, m, name, m);
        TakesFromIsUnique(mods, m, name, m, Source(mods, m, name).value);
        return Some(m);
      }
      var imports := mods[m].imports;
      for i := 0 to |imports|
        invariant forall j :: 0 <= j < i ==> !Supplies(mods, imports[j], name)
      {
        if name in imports[i].symbols {
          var found := ByName(mods, imports[i].from);
          if found.Some? && name in mods[found.value].decls {
            assert Supplies(mods, imports[i], name) && TakesFrom(mods, m, name, found.value);
            TakesFromIsUnique(mods, m, name, found.value, Source(mods, m, name).value);
            return found;
          }
        }
      }
      for t := 0 to |mods|
        invariant forall j :: 0 <= j < t ==> !Declares(mods, j, name)
      {
        if t != m && name in mods[t].decls {
          assert TakesFrom(mods, m, name, t);
          TakesFromIsUnique(mods, m, name, t, Source(mods, m, name).value);
          return Some(t);
        }
      }
      return None;
    }

    /** The declarations no lookup has begun on. */
    ghost function Open(): set<Key>
      reads this
    {
      Declared() - memo.Keys
    }

    /** The identifier a declaration is assigned, and whether it counts as resolved.  The answer is
        the declaration's meaning, so it does not depend on what was asked before, and it is what the
        declaration spells, arc by arc. */
    method OidOf(k: Key, ghost stack: seq<Key>) returns (oid: Oid, ok: bool)
      requires Valid(stack) && Calls(mods, stack, k)
      modifies this
      ensures Valid(stack) && Grows(old(memo), memo)
      ensures (oid, ok) == Meaning(mods, k)
      ensures oid != [] ==> exists chain :: chain != [] && chain[0] == k && Spells(mods, chain, oid)
      decreases |Open() + ({k} - memo.Keys)|, 1
    {
      hide Meaning, HangsOn, Calls, Open, Spells;
      ghost var spelled := MeaningIsSpelled(mods, k);
      if k in memo {
        if memo[k].Busy? {
          ghost var i :| 0 <= i < |stack| && stack[i] == k;
          ClosesCycle(mods, stack, k, i);
          return [], false;
        }
        return memo[k].oid, memo[k].ok;
      }
      oid, ok := FirstTime(k, stack);
    }

    method FirstTime(k: Key, ghost stack: seq<Key>) returns (oid: Oid, ok: bool)
      requires Valid(stack) && Calls(mods, stack, k) && k !in memo
      modifies this
      ensures Valid(stack) && Grows(old(memo), memo)
      ensures (oid, ok) == Meaning(mods, k)
      decreases |Open() + ({k} - memo.Keys)|, 0
    {
      hide Meaning, HangsOn, Calls, Declared;
      ghost var before, open := memo, Open() + ({k} - memo.Keys);
      MemoBegin(mods, memo, stack, k);
      assert k !in stack;
      hide MemoOk, Grows;
      memo := memo[k := Busy];
      assert open == Open() + {k} && k !in Open();
      assert (stack + [k])[..|stack|] == stack;
      oid, ok := Compute(k, stack + [k]);
      MemoEnd(mods, memo, stack, k, oid, ok);
      GrowsEnd(before, memo, k, oid, ok);
      memo := memo[k := Done(oid, ok)];
    }

    method Compute(k: Key, ghost stack: seq<Key>) returns (oid: Oid, ok: bool)
      requires stack != [] && stack[|stack| - 1] == k && Valid(stack) && Calls(mods, stack[..|stack| - 1], k)
      modifies this
      ensures Valid(stack) && Grows(old(memo), memo)
      ensures (oid, ok) == Meaning(mods, k)
      decreases |Open()|, 4
    {
      hide Meaning, HangsOn, Calls, Valid, Open;
      if k.owner >= |mods| || k.name !in mods[k.owner].decls {
        UndeclaredMeansNothing(mods, k);
        return [], false;
      }
      MeaningStep(mods, k);
      var decl := mods[k.owner].decls[k.name];
      match decl
      case Trap(notification) =>
        oid, ok := TrapOid(k, notification, stack);
      case Assigned(value, withheld) =>
        if value.None? || value.value == [] { return [], false; }
        var arcs := value.value;
        var base, resolved := ArcBase(k, arcs[0], stack);
        if base == [] { return [], false; }
        hide BaseMeaning, BaseOf;
        var tail := Tail(arcs);
        if tail.None? { return [], false; }
        var subs := base + tail.value;
        if |subs| == 0 || |subs| > MaxOidLength { return [], false; }
        if withheld { return subs, false; }
        return subs, resolved;
    }

    /** The numbers after the first arc, which all have to be there. */
    method Tail(arcs: seq<Arc>) returns (numbers: Option<seq<nat>>)
      requires arcs != []
      ensures numbers == if AllNumbered(arcs[1..]) then Some(Numbers(arcs[1..])) else None
    {
      var subs := [];
      for i := 1 to |arcs|
        invariant AllNumbered(arcs[1..i]) && subs == Numbers(arcs[1..i])
      {
        if !arcs[i].hasNum {
          assert arcs[1..][i - 1] == arcs[i];
          return None;
        }
        assert arcs[1..i + 1] == arcs[1..i] + [arcs[i]];
        subs := subs + [arcs[i].num];
      }
      assert arcs[1..|arcs|] == arcs[1..];
      return Some(subs);
    }

    method TrapOid(k: Key, notification: Option<Notification>, ghost stack: seq<Key>) returns (oid: Oid, ok: bool)
      requires stack != [] && stack[|stack| - 1] == k && Valid(stack) && Calls(mods, stack[..|stack| - 1], k)
      requires Declares(mods, k.owner, k.name) && mods[k.owner].decls[k.name] == Trap(notification)
      modifies this
      ensures Valid(stack) && Grows(old(memo), memo)
      ensures (oid, ok) == Meaning(mods, k)
      decreases |Open()|, 3
    {
      hide Meaning, HangsOn, Calls, Valid, Open;
      MeaningStep(mods, k);
      if notification.None? || notification.value.enterprise == "" { return [], false; }
      var suffix := notification.value.suffix;
      var base, resolved := ArcBase(k, Arc(notification.value.enterprise, 0, false), stack);
      if !resolved { return [], false; }
      BaseNonEmpty(mods, BaseOf(mods, k.owner, Arc(notification.value.enterprise, 0, false)));
      hide BaseMeaning, BaseOf;
      if |base| + |suffix| > MaxOidLength { return [], false; }
      var subs := base;
      for i := 0 to |suffix|
        invariant SubIdentifiers(suffix[..i]) && subs == base + Nats(suffix[..i])
      {
        if suffix[i] < 0 || suffix[i] > MaxSubIdentifier { return [], false; }
        assert suffix[..i + 1] == suffix[..i] + [suffix[i]];
        subs := subs + [suffix[i]];
      }
      assert suffix[..|suffix|] == suffix;
      return subs, true;
    }

    /** The first arc of a value, which is the only one that may name something. */
    method ArcBase(k: Key, arc: Arc, ghost stack: seq<Key>) returns (oid: Oid, ok: bool)
      requires stack != [] && stack[|stack| - 1] == k && Valid(stack) && Calls(mods, stack[..|stack| - 1], k)
      requires Declares(mods, k.owner, k.name) && FirstArc(mods[k.owner].decls[k.name]) == Some(arc)
      modifies this
      ensures Valid(stack) && Grows(old(memo), memo)
      ensures (oid, ok) == BaseMeaning(mods, BaseOf(mods, k.owner, arc))
      decreases |Open()|, 2
    {
      hide Meaning, Calls, FirstArc, Spells;
      if arc.name == "" {
        if !arc.hasNum { return [], false; }
        return [arc.num], true;
      }
      if arc.name in WellKnownRoots { return [WellKnownRoots[arc.name]], true; }
      var target := LookupDecl(k.owner, arc.name);
      if target.None? { return [], false; }
      var parent := Key(target.value, arc.name);
      PushCall(mods, stack, k, parent);
      assert Open() + ({parent} - memo.Keys) == Open();
      oid, ok := OidOf(parent, stack);
    }
  }

  lemma BaseNonEmpty(mods: seq<Module>, base: Base)
    ensures BaseMeaning(mods, base).1 ==> BaseMeaning(mods, base).0 != []
  {
    match base
    case Named(p) => if exists chain :: Gives(mods, p, chain) { var chain :| Gives(mods, p, chain); MeaningIs(mods, p, chain); }
    case _ =>
  }

  lemma UndeclaredMeansNothing(mods: seq<Module>, k: Key)
    requires !Declares(mods, k.owner, k.name)
    ensures Meaning(mods, k) == ([], false)
  {
    forall chain ensures !Gives(mods, k, chain) { if chain != [] { var _ := LinkOf(mods, chain[0]); } }
  }

  lemma ClosesCycle(mods: seq<Module>, stack: seq<Key>, k: Key, i: nat)
    requires Calls(mods, stack, k) && i < |stack| && stack[i] == k
    ensures Meaning(mods, k) == ([], false)
  {
    var cycle := stack[i..];
    forall j | 0 <= j < |cycle|
      ensures HangsOn(mods, cycle[j]) == Some(Round(cycle, j + 1))
    {
      assert HangsOn(mods, stack[i + j]) == Some(CallAt(stack, k, i + j + 1));
      assert cycle[j] == stack[i + j];
    }
    CycleMeansNothing(mods, cycle);
  }

  // ---------------------------------------------------------------- which declarations get nothing

  /** Declarations each hanging on the next by a well-formed value. */
  ghost predicate IsPath(mods: seq<Module>, path: seq<Key>)
  {
    && path != []
    && forall i :: 0 <= i < |path| - 1 ==> LinkOf(mods, path[i]).Below? && LinkOf(mods, path[i]).parent == path[i + 1]
  }

  /** A path that ends at something undefined or malformed, or comes back to itself. */
  ghost predicate DeadEnd(mods: seq<Module>, k: Key, path: seq<Key>)
  {
    && IsPath(mods, path) && path[0] == k
    && match LinkOf(mods, path[|path| - 1])
       case Broken => true
       case Below(p, _) => p in path
       case Anchored(_, _) => false
  }

  function AllKeys(mods: seq<Module>): set<Key>
  {
    set m, name | 0 <= m < |mods| && name in mods[m].decls :: Key(m, name)
  }

  function Visited(path: seq<Key>): set<Key>
  {
    set q | q in path
  }

  lemma LongerPath(mods: seq<Module>, path: seq<Key>, parent: Key)
    requires IsPath(mods, path) && LinkOf(mods, path[|path| - 1]).Below? && LinkOf(mods, path[|path| - 1]).parent == parent
    ensures IsPath(mods, path + [parent])
  {
    hide LinkOf;
    var longer := path + [parent];
    forall i | 0 <= i < |longer| - 1 ensures LinkOf(mods, longer[i]).Below? && LinkOf(mods, longer[i]).parent == longer[i + 1] {
      assert longer[i] == path[i];
      if i < |path| - 1 { assert LinkOf(mods, path[i]).parent == path[i + 1]; }
    }
  }

  lemma OneMoreVisited(all: set<Key>, path: seq<Key>, parent: Key)
    requires Distinct(path) && parent !in path && parent in all
    ensures Distinct(path + [parent])
    ensures |all - Visited(path + [parent])| < |all - Visited(path)|
  {
    forall i, j | 0 <= i < j < |path + [parent]| ensures (path + [parent])[i] != (path + [parent])[j] {
      assert (path + [parent])[i] == path[i] && path[i] in path;
    }
    assert Visited(path + [parent]) == Visited(path) + {parent};
    ProperSubsetSize(all - Visited(path + [parent]), all - Visited(path));
  }

  /** Following the parents either reaches a root or a dead end. */
  lemma {:induction false} FollowParents(mods: seq<Module>, k: Key, path: seq<Key>) returns (full: seq<Key>)
    requires IsPath(mods, path) && path[0] == k && Distinct(path)
    ensures path <= full && (DeadEnd(mods, k, full) || (IsChain(mods, full) && full[0] == k))
    decreases |AllKeys(mods) - Visited(path)|
  {
    hide LinkOf, AllKeys, Visited, Distinct;
    full := path;
    var link := LinkOf(mods, path[|path| - 1]);
    if link.Below? && link.parent !in path {
      ParentDeclared(mods, path[|path| - 1]);
      LongerPath(mods, path, link.parent);
      OneMoreVisited(AllKeys(mods), path, link.parent);
      full := FollowParents(mods, k, path + [link.parent]);
    }
  }

  lemma ParentDeclared(mods: seq<Module>, k: Key)
    requires LinkOf(mods, k).Below?
    ensures LinkOf(mods, k).parent in AllKeys(mods)
  {
  }

  /** A dead end and a chain exclude each other. */
  lemma DeadEndHasNoChain(mods: seq<Module>, k: Key, path: seq<Key>, chain: seq<Key>)
    ensures !(DeadEnd(mods, k, path) && IsChain(mods, chain) && chain[0] == k)
  {
    hide LinkOf;
    if DeadEnd(mods, k, path) && IsChain(mods, chain) && chain[0] == k {
      FollowsPath(mods, path, chain, |path| - 1);
      var last := LinkOf(mods, path[|path| - 1]);
      if last.Below? {
        assert |path| - 1 < |chain| - 1;
        assert LinkOf(mods, chain[|path| - 1]).parent == chain[|path| - 1 + 1];
        var j :| 0 <= j < |path| && path[j] == last.parent;
        FollowsPath(mods, path, chain, j);
        NeverRepeats(mods, chain, j, |path|);
      }
    }
  }

  lemma NeverRepeats(mods: seq<Module>, chain: seq<Key>, i: nat, j: nat)
    requires IsChain(mods, chain) && i < j < |chain|
    ensures chain[i] != chain[j]
  {
    if chain[i] == chain[j] {
      var a := ChainFrom(mods, chain, i);
      var b := ChainFrom(mods, chain, j);
      ChainIsUnique(mods, a, b);
    }
  }

  lemma {:induction false} FollowsPath(mods: seq<Module>, path: seq<Key>, chain: seq<Key>, n: nat)
    requires IsPath(mods, path) && IsChain(mods, chain) && path[0] == chain[0] && n < |path|
    ensures n < |chain| && chain[n] == path[n]
  {
    if n > 0 {
      FollowsPath(mods, path, chain, n - 1);
      hide LinkOf;
      assert LinkOf(mods, path[n - 1]).parent == path[n - 1 + 1];
      assert n - 1 < |chain| - 1;
      assert LinkOf(mods, chain[n - 1]).parent == chain[n - 1 + 1];
    }
  }

  /** A declaration gets no identifier exactly when its parents lead to something undefined or
      malformed or back to themselves, when the identifier would be too long, or when a trap on the
      way has an enterprise that does not count as resolved. */
  lemma EmptyExactlyWhen(mods: seq<Module>, k: Key)
    ensures Meaning(mods, k).0 == [] <==>
      || (exists path :: DeadEnd(mods, k, path))
      || (exists chain :: IsChain(mods, chain) && chain[0] == k
                          && (|ChainOid(mods, chain)| > MaxOidLength || !TrapsResolved(mods, chain)))
  {
    assert Distinct([k]) && IsPath(mods, [k]);
    var full := FollowParents(mods, k, [k]);
    hide IsPath, IsChain, ChainOid, TrapsResolved, Trusted;
    if DeadEnd(mods, k, full) {
      forall chain ensures !Gives(mods, k, chain) { DeadEndHasNoChain(mods, k, full, chain); }
    } else {
      ChainDecides(mods, k, full);
      forall path ensures !DeadEnd(mods, k, path) { DeadEndHasNoChain(mods, k, path, full); }
    }
  }

  lemma ChainDecides(mods: seq<Module>, k: Key, full: seq<Key>)
    requires IsChain(mods, full) && full[0] == k
    ensures Meaning(mods, k).0 == [] <==> |ChainOid(mods, full)| > MaxOidLength || !TrapsResolved(mods, full)
    ensures forall chain :: IsChain(mods, chain) && chain[0] == k ==> chain == full
  {
    forall chain | IsChain(mods, chain) && chain[0] == k ensures chain == full { ChainIsUnique(mods, chain, full); }
    if Gives(mods, k, full) { MeaningIs(mods, k, full); }
  }

  /** It counts as resolved exactly when a chain within the length limit leads to a root and no
      declaration on it was withheld. */
  lemma ResolvedExactlyWhen(mods: seq<Module>, k: Key)
    ensures Meaning(mods, k).1 <==>
      exists chain :: IsChain(mods, chain) && chain[0] == k && |ChainOid(mods, chain)| <= MaxOidLength && Trusted(mods, chain)
    ensures Meaning(mods, k).1 ==> Meaning(mods, k).0 != []
  {
    if Meaning(mods, k).1 {
      var chain :| Gives(mods, k, chain) && Meaning(mods, k) == (ChainOid(mods, chain), Trusted(mods, chain));
      MeaningIs(mods, k, chain);
    }
    forall chain | IsChain(mods, chain) && chain[0] == k && |ChainOid(mods, chain)| <= MaxOidLength && Trusted(mods, chain)
      ensures Meaning(mods, k).1
    {
      forall i | 0 <= i < |chain| && IsTrap(mods, chain[i]) ensures Trusted(mods, chain[i + 1..]) {}
      MeaningIs(mods, k, chain);
    }
  }

  /** A withheld declaration, a trap of it and an ordinary child of it. */
  function Sample(): seq<Module>
  {
    [Module("M", map["e" := Assigned(Some([Arc("iso", 0, false), Arc("", 3, true)]), true),
                     "t" := Trap(Some(Notification("e", [0, 7]))),
                     "c" := Assigned(Some([Arc("e", 0, false), Arc("", 5, true)]), false)], [])]
  }

  lemma SampleBase()
    ensures BaseOf(Sample(), 0, Arc("e", 0, false)) == Named(Key(0, "e"))
  {
    var mods := Sample();
    assert TakesFrom(mods, 0, "e", 0);
    TakesFromIsUnique(mods, 0, "e", 0, Source(mods, 0, "e").value);
    assert "e" !in WellKnownRoots;
  }

  lemma SampleEnterprise()
    ensures Meaning(Sample(), Key(0, "e")) == ([1, 3], false)
  {
    assert "iso" in WellKnownRoots;
    assert Declares(Sample(), 0, "e") && Withheld(Sample(), Key(0, "e"));
    assert Shape(Sample()[0].decls["e"]) == Some((Arc("iso", 0, false), [3])) by {
      assert Numbers([Arc("", 3, true)]) == [3];
    }
    MeaningStep(Sample(), Key(0, "e"));
    assert [1] + [3] == [1, 3];
  }

  lemma SampleBelow(name: string, arcs: seq<nat>)
    requires name == "t" || name == "c"
    requires arcs == if name == "t" then [0, 7] else [5]
    ensures Declares(Sample(), 0, name) && Shape(Sample()[0].decls[name]) == Some((Arc("e", 0, false), arcs))
    ensures LinkOf(Sample(), Key(0, name)) == Below(Key(0, "e"), arcs)
    ensures !Withheld(Sample(), Key(0, name)) && (IsTrap(Sample(), Key(0, name)) <==> name == "t")
  {
    SampleBase();
    assert Numbers([Arc("", 5, true)]) == [5] && Nats([0, 7]) == [0, 7];
    hide BaseOf;
  }

  lemma SampleRoot()
    ensures LinkOf(Sample(), Key(0, "e")).Anchored?
  {
    assert "iso" in WellKnownRoots;
    assert Declares(Sample(), 0, "e");
  }

  /** A trap under a withheld enterprise has a root, a short chain and no cycle, and still gets no
      identifier, where any other declaration there would get one. */
  lemma WithheldEnterpriseLosesTrap()
    ensures IsChain(Sample(), [Key(0, "t"), Key(0, "e")])
    ensures Meaning(Sample(), Key(0, "c")) == ([1, 3, 5], false)
    ensures Meaning(Sample(), Key(0, "t")) == ([], false)
  {
    var mods, t, e, c := Sample(), Key(0, "t"), Key(0, "e"), Key(0, "c");
    SampleBelow("c", [5]);
    SampleBelow("t", [0, 7]);
    SampleEnterprise();
    SampleRoot();
    hide BaseOf, Meaning, Withheld, LinkOf, IsTrap, Sample, Shape, Declares;
    BelowStep(mods, c);
    BelowStep(mods, t);
    assert [1, 3] + [5] == [1, 3, 5];
    TwoLinkChain(mods, t, e);
  }

  lemma TwoLinkChain(mods: seq<Module>, a: Key, b: Key)
    requires LinkOf(mods, a).Below? && LinkOf(mods, a).parent == b && LinkOf(mods, b).Anchored?
    ensures IsChain(mods, [a, b])
  {
    hide LinkOf;
  }
}
