/** The runtime manifest and its PREPARED/COMMITTED journal.

    A start compares its configuration with the journal's latest record, refuses a
    configuration that is not an additive extension of it, and otherwise publishes a
    PREPARED and then a COMMITTED record.  The process may die before, between or after
    the two publishes. */
module Manifest {
  import opened Common

  // ---------------------------------------------------------------- data

  datatype Subscription = Subscription(kind: nat, typeName: string, aliases: seq<string>, retries: nat)

  datatype Contract = Contract(
    path: string, pathToken: string, durableName: string,
    subscriptions: seq<Subscription>, deliveryConcurrency: nat)

  /** Everything in a manifest that a later start must repeat exactly. */
  datatype Settings = Settings(
    serviceNamespace: string, serviceName: string, domain: string,
    envelopeType: string, envelopeVersion: nat, subjectVersion: nat, natsVersion: string,
    mailboxStream: string, metadataStream: string,
    maxStoreBytes: nat, mailboxMaxBytes: nat, metadataMaxBytes: nat, reserveBytes: nat, duplicateWindow: nat)

  datatype Manifest = Manifest(settings: Settings, modules: seq<Contract>, modulePaths: seq<string>)

  // ---------------------------------------------------------------- additive extension

  predicate SameKey(a: Subscription, b: Subscription)
  {
    a.kind == b.kind && a.typeName == b.typeName
  }

  ghost predicate Includes(values: seq<string>, required: seq<string>)
  {
    forall x :: x in required ==> x in values
  }

  /** `j` is the first subscription with the key of `was`. */
  ghost predicate FirstMatch(was: Subscription, subscriptions: seq<Subscription>, j: nat)
  {
    j < |subscriptions| && SameKey(was, subscriptions[j]) && forall k :: 0 <= k < j ==> !SameKey(was, subscriptions[k])
  }

  ghost predicate Widens(was: Subscription, now: Subscription)
  {
    was.(aliases := []) == now.(aliases := []) && Includes(now.aliases, was.aliases)
  }

  ghost predicate Kept(was: Subscription, subscriptions: seq<Subscription>)
  {
    exists j: nat :: FirstMatch(was, subscriptions, j) && Widens(was, subscriptions[j])
  }

  /** A module contract that keeps everything of `was` but may add subscriptions and aliases. */
  ghost predicate ContractExtends(was: Contract, now: Contract)
  {
    && was.(subscriptions := []) == now.(subscriptions := [])
    && forall i :: 0 <= i < |was.subscriptions| ==> Kept(was.subscriptions[i], now.subscriptions)
  }

  /** `j` is the last contract for `path`, the one a map built in order keeps. */
  ghost predicate LastFor(modules: seq<Contract>, path: string, j: nat)
  {
    j < |modules| && modules[j].path == path && forall k :: j < k < |modules| ==> modules[k].path != path
  }

  ghost predicate ModuleKept(was: Contract, modules: seq<Contract>)
  {
    exists j: nat :: LastFor(modules, was.path, j) && ContractExtends(was, modules[j])
  }

  /** An additive extension: nothing persisted is removed or changed. */
  ghost predicate Extends(was: Manifest, now: Manifest)
  {
    && was.settings == now.settings && Includes(now.modulePaths, was.modulePaths)
    && forall i :: 0 <= i < |was.modules| ==> ModuleKept(was.modules[i], now.modules)
  }

  // ---------------------------------------------------------------- the comparison

  method ContainsAll(values: seq<string>, required: seq<string>) returns (ok: bool)
    ensures ok <==> Includes(values, required)
  {
    var present: set<string> := {};
    for i := 0 to |values|
      invariant forall x :: x in present <==> x in values[..i]
    {
      present := present + {values[i]};
    }
    assert values[..|values|] == values;
    for i := 0 to |required|
      invariant forall k :: 0 <= k < i ==> required[k] in values
    {
      assert required[i] in required;
      if required[i] !in present { return false; }
    }
    return true;
  }

  method ModuleAdditionCompatible(previous: Contract, desired: Contract) returns (ok: bool)
    ensures ok <==> ContractExtends(previous, desired)
  {
    if previous.(subscriptions := []) != desired.(subscriptions := []) { return false; }
    for i := 0 to |previous.subscriptions|
      invariant forall k :: 0 <= k < i ==> Kept(previous.subscriptions[k], desired.subscriptions)
    {
      var was := previous.subscriptions[i];
      var found := false;
      var j := 0;
      while j < |desired.subscriptions|
        invariant 0 <= j <= |desired.subscriptions| && !found
        invariant forall k :: 0 <= k < j ==> !SameKey(was, desired.subscriptions[k])
      {
        var candidate := desired.subscriptions[j];
        if SameKey(was, candidate) {
          var wider := ContainsAll(candidate.aliases, was.aliases);
          found := was.(aliases := []) == candidate.(aliases := []) && wider;
          assert FirstMatch(was, desired.subscriptions, j);
          break;
        }
        j := j + 1;
      }
      if !found {
        assert !Kept(was, desired.subscriptions);
        return false;
      }
    }
    return true;
  }

  /** One more contract is the last for its own path and leaves the others as they were. */
  lemma LastMoves(modules: seq<Contract>, i: nat)
    requires i < |modules|
    ensures LastFor(modules[..i + 1], modules[i].path, i)
    ensures forall p, j: nat :: LastFor(modules[..i], p, j) && p != modules[i].path ==> LastFor(modules[..i + 1], p, j)
  {
  }

  method ManifestAdditionCompatible(previous: Option<Manifest>, desired: Option<Manifest>) returns (ok: bool)
    ensures ok <==> (previous.None? || (desired.Some? && Extends(previous.value, desired.value)))
  {
    if previous.None? || desired.None? { return previous.None?; }
    var was, next := previous.value, desired.value;
    var paths := ContainsAll(next.modulePaths, was.modulePaths);
    if was.settings != next.settings || !paths { return false; }
    var byPath: map<string, Contract> := map[];
    ghost var at: map<string, nat> := map[];
    for i := 0 to |next.modules|
      invariant byPath.Keys == at.Keys
      invariant forall p :: p in at ==> LastFor(next.modules[..i], p, at[p]) && byPath[p] == next.modules[at[p]]
      invariant forall k :: 0 <= k < i ==> next.modules[k].path in at
    {
      LastMoves(next.modules, i);
      byPath := byPath[next.modules[i].path := next.modules[i]];
      at := at[next.modules[i].path := i];
    }
    assert next.modules[..|next.modules|] == next.modules;
    assert forall p :: p in at ==> LastFor(next.modules, p, at[p]);
    for i := 0 to |was.modules|
      invariant forall k :: 0 <= k < i ==> ModuleKept(was.modules[k], next.modules)
    {
      var path := was.modules[i].path;
      if path !in byPath {
        assert !ModuleKept(was.modules[i], next.modules);
        return false;
      }
      var same := ModuleAdditionCompatible(was.modules[i], byPath[path]);
      if !same {
        assert LastFor(next.modules, path, at[path]);
        assert !ModuleKept(was.modules[i], next.modules);
        return false;
      }
    }
    return true;
  }

  // ---------------------------------------------------------------- extension is a preorder

  lemma KeptTransitive(a: Subscription, b: seq<Subscription>, j: nat, c: seq<Subscription>)
    requires FirstMatch(a, b, j) && Widens(a, b[j]) && Kept(b[j], c)
    ensures Kept(a, c)
  {
    var k: nat :| FirstMatch(b[j], c, k) && Widens(b[j], c[k]);
    assert FirstMatch(a, c, k) && Widens(a, c[k]);
  }

  lemma ContractTransitive(a: Contract, b: Contract, c: Contract)
    requires ContractExtends(a, b) && ContractExtends(b, c)
    ensures ContractExtends(a, c)
  {
    forall i | 0 <= i < |a.subscriptions| ensures Kept(a.subscriptions[i], c.subscriptions) {
      var j: nat :| FirstMatch(a.subscriptions[i], b.subscriptions, j) && Widens(a.subscriptions[i], b.subscriptions[j]);
      KeptTransitive(a.subscriptions[i], b.subscriptions, j, c.subscriptions);
    }
  }

  /** Extensions compose, whatever duplicates the manifests hold. */
  lemma ExtendsTransitive(a: Manifest, b: Manifest, c: Manifest)
    requires Extends(a, b) && Extends(b, c)
    ensures Extends(a, c)
  {
    forall i | 0 <= i < |a.modules| ensures ModuleKept(a.modules[i], c.modules) {
      var j: nat :| LastFor(b.modules, a.modules[i].path, j) && ContractExtends(a.modules[i], b.modules[j]);
      var k: nat :| LastFor(c.modules, b.modules[j].path, k) && ContractExtends(b.modules[j], c.modules[k]);
      ContractTransitive(a.modules[i], b.modules[j], c.modules[k]);
    }
  }

  /** What configuration checks guarantee: one contract per path, one subscription per key. */
  ghost predicate WellFormed(m: Manifest)
  {
    && (forall i, j :: 0 <= i < j < |m.modules| ==> m.modules[i].path != m.modules[j].path)
    && (forall i, j, k :: 0 <= i < |m.modules| && 0 <= j < k < |m.modules[i].subscriptions| ==>
          !SameKey(m.modules[i].subscriptions[j], m.modules[i].subscriptions[k]))
  }

  lemma ContractReflexive(m: Manifest, i: nat)
    requires WellFormed(m) && i < |m.modules|
    ensures ContractExtends(m.modules[i], m.modules[i])
  {
    var subscriptions := m.modules[i].subscriptions;
    forall j | 0 <= j < |subscriptions| ensures Kept(subscriptions[j], subscriptions) {
      assert FirstMatch(subscriptions[j], subscriptions, j);
      assert Widens(subscriptions[j], subscriptions[j]);
    }
  }

  lemma ExtendsReflexive(m: Manifest)
    requires WellFormed(m)
    ensures Extends(m, m)
  {
    forall i | 0 <= i < |m.modules| ensures ModuleKept(m.modules[i], m.modules) {
      ContractReflexive(m, i);
      assert LastFor(m.modules, m.modules[i].path, i);
    }
  }

  lemma {:induction false} LastExists(modules: seq<Contract>, i: nat) returns (j: nat)
    requires i < |modules|
    ensures LastFor(modules, modules[i].path, j)
    decreases |modules| - i
  {
    if k :| i < k < |modules| && modules[k].path == modules[i].path {
      j := LastExists(modules, k);
    } else {
      j := i;
    }
  }

  lemma {:induction false} FirstExists(was: Subscription, subscriptions: seq<Subscription>, i: nat) returns (j: nat)
    requires i < |subscriptions| && SameKey(was, subscriptions[i])
    ensures FirstMatch(was, subscriptions, j)
  {
    if k :| 0 <= k < i && SameKey(was, subscriptions[k]) {
      j := FirstExists(was, subscriptions, k);
    } else {
      j := i;
    }
  }

  /** The key is there, and the first subscription with it widens the old one. */
  ghost predicate WidenedByFirst(was: Subscription, subscriptions: seq<Subscription>)
  {
    && (exists k :: 0 <= k < |subscriptions| && SameKey(was, subscriptions[k]))
    && forall j: nat :: FirstMatch(was, subscriptions, j) ==> Widens(was, subscriptions[j])
  }

  ghost predicate AgreesWith(was: Contract, now: Contract)
  {
    && was.(subscriptions := []) == now.(subscriptions := [])
    && forall q :: 0 <= q < |was.subscriptions| ==> WidenedByFirst(was.subscriptions[q], now.subscriptions)
  }

  lemma KeptExactly(was: Subscription, subscriptions: seq<Subscription>)
    ensures Kept(was, subscriptions) <==> WidenedByFirst(was, subscriptions)
  {
    if k :| 0 <= k < |subscriptions| && SameKey(was, subscriptions[k]) {
      var j := FirstExists(was, subscriptions, k);
      forall i: nat | FirstMatch(was, subscriptions, i) ensures i == j {}
    }
  }

  lemma ExtendsByFirst(was: Contract, now: Contract)
    ensures ContractExtends(was, now) <==> AgreesWith(was, now)
  {
    forall q | 0 <= q < |was.subscriptions|
      ensures Kept(was.subscriptions[q], now.subscriptions) <==> WidenedByFirst(was.subscriptions[q], now.subscriptions)
    {
      KeptExactly(was.subscriptions[q], now.subscriptions);
    }
  }

  lemma KeptByLast(was: Contract, modules: seq<Contract>, j: nat)
    requires LastFor(modules, was.path, j)
    ensures ModuleKept(was, modules) <==> ContractExtends(was, modules[j])
  {
    forall k: nat | LastFor(modules, was.path, k) ensures k == j {}
  }

  /** Without the configuration's checks a manifest extends itself exactly when each contract agrees with
      the last one for its path: each subscription has its key there, and the first with that key widens it. */
  lemma ExtendsItselfExactly(m: Manifest)
    ensures Extends(m, m) <==>
      forall i: nat, j: nat :: i < |m.modules| && LastFor(m.modules, m.modules[i].path, j) ==> AgreesWith(m.modules[i], m.modules[j])
  {
    forall i: nat, j: nat | i < |m.modules| && LastFor(m.modules, m.modules[i].path, j)
      ensures ModuleKept(m.modules[i], m.modules) <==> AgreesWith(m.modules[i], m.modules[j])
    {
      KeptByLast(m.modules[i], m.modules, j);
      ExtendsByFirst(m.modules[i], m.modules[j]);
    }
    hide AgreesWith, LastFor, ModuleKept;
    forall i: nat | i < |m.modules| ensures exists j: nat :: LastFor(m.modules, m.modules[i].path, j) {
      var j := LastExists(m.modules, i);
    }
  }

  // ---------------------------------------------------------------- the journal

  datatype Phase = Prepared | Committed

  datatype Record = Record(previous: Option<Manifest>, desired: Manifest, phase: Phase)

  /** What a start does with the journal before settlements are reconciled. */
  datatype Plan = UpToDate | Incompatible | Publishes(records: seq<Record>)

  ghost function PlanFor(current: Option<Record>, desired: Manifest): Plan
  {
    if current.Some? && current.value.phase.Committed? && current.value.desired == desired then UpToDate
    else if current.Some? && current.value.phase.Prepared? && current.value.previous == Some(desired) then
      Publishes([Record(current.value.previous, desired, Committed)])
    else if current.Some? && !Extends(current.value.desired, desired) then Incompatible
    else
      var previous :=
        if current.None? then None
        else if current.value.phase.Committed? then Some(current.value.desired)
        else current.value.previous;
      Publishes([Record(previous, desired, Prepared), Record(previous, desired, Committed)])
  }

  /** The branches of a start, deciding by the loops above. */
  method ReconcileRuntimeManifest(current: Option<Record>, desired: Manifest) returns (plan: Plan)
    ensures plan == PlanFor(current, desired)
  {
    if current.Some? {
      if current.value.phase.Committed? && current.value.desired == desired { return UpToDate; }
      if current.value.phase.Prepared? && current.value.previous == Some(desired) {
        return Publishes([Record(current.value.previous, desired, Committed)]);
      }
      var compatible := ManifestAdditionCompatible(Some(current.value.desired), Some(desired));
      if !compatible { return Incompatible; }
    }
    var previous := None;
    if current.Some? {
      previous := if current.value.phase.Committed? then Some(current.value.desired) else current.value.previous;
    }
    return Publishes([Record(previous, desired, Prepared), Record(previous, desired, Committed)]);
  }

  /** One start: its configuration and how many of its publishes reached the journal. */
  datatype Boot = Boot(desired: Manifest, reached: nat)

  ghost function Latest(journal: seq<Record>): Option<Record>
  {
    if journal == [] then None else Some(journal[|journal| - 1])
  }

  ghost function After(journal: seq<Record>, boot: Boot): seq<Record>
  {
    match PlanFor(Latest(journal), boot.desired)
    case Publishes(records) => journal + (if boot.reached < |records| then records[..boot.reached] else records)
    case _ => journal
  }

  ghost function Journal(boots: seq<Boot>): seq<Record>
  {
    if boots == [] then [] else After(Journal(boots[..|boots| - 1]), boots[|boots| - 1])
  }

  ghost predicate AllWellFormed(boots: seq<Boot>)
  {
    forall i :: 0 <= i < |boots| ==> WellFormed(boots[i].desired)
  }

  /** `c` is what the journal has committed so far: the last committed manifest, or none. */
  ghost predicate CommittedSoFar(journal: seq<Record>, c: Option<Manifest>)
  {
    && (forall i :: 0 <= i < |journal| && journal[i].phase.Committed? ==> c.Some? && Extends(journal[i].desired, c.value))
    && (forall i, j :: 0 <= i < j < |journal| && journal[i].phase.Committed? && journal[j].phase.Committed? ==>
          Extends(journal[i].desired, journal[j].desired))
    && (forall i :: 0 <= i < |journal| ==> WellFormed(journal[i].desired))
    && (c.Some? ==> WellFormed(c.value))
    && match Latest(journal)
       case None => c.None?
       case Some(r) => if r.phase.Committed? then c == Some(r.desired)
                       else r.previous == c && (c.Some? ==> Extends(c.value, r.desired))
  }

  lemma PublishPrepared(journal: seq<Record>, c: Option<Manifest>, r: Record)
    requires CommittedSoFar(journal, c) && WellFormed(r.desired)
    requires r.phase.Prepared? && r.previous == c && (c.Some? ==> Extends(c.value, r.desired))
    ensures CommittedSoFar(journal + [r], c)
  {
  }

  lemma PublishCommitted(journal: seq<Record>, c: Option<Manifest>, r: Record)
    requires CommittedSoFar(journal, c) && WellFormed(r.desired)
    requires r.phase.Committed? && (c.Some? ==> Extends(c.value, r.desired))
    ensures CommittedSoFar(journal + [r], Some(r.desired))
  {
    ExtendsReflexive(r.desired);
    forall i | 0 <= i < |journal| && journal[i].phase.Committed? ensures Extends(journal[i].desired, r.desired) {
      ExtendsTransitive(journal[i].desired, c.value, r.desired);
    }
  }

  lemma BootKeeps(journal: seq<Record>, c: Option<Manifest>, boot: Boot) returns (c': Option<Manifest>)
    requires CommittedSoFar(journal, c) && WellFormed(boot.desired)
    ensures CommittedSoFar(After(journal, boot), c')
  {
    c' := c;
    var current := Latest(journal);
    match PlanFor(current, boot.desired)
    case UpToDate =>
    case Incompatible =>
    case Publishes(records) =>
      if current.Some? && current.value.phase.Prepared? && current.value.previous == Some(boot.desired) {
        if boot.reached >= 1 {
          ExtendsReflexive(boot.desired);
          PublishCommitted(journal, c, records[0]);
          c' := Some(boot.desired);
        } else {
          assert After(journal, boot) == journal;
        }
      } else {
        if c.Some? && current.value.phase.Prepared? { ExtendsTransitive(c.value, current.value.desired, boot.desired); }
        if boot.reached >= 1 { PublishPrepared(journal, c, records[0]); }
        if boot.reached >= 2 {
          PublishCommitted(journal + [records[0]], c, records[1]);
          c' := Some(boot.desired);
          assert After(journal, boot) == journal + [records[0]] + [records[1]];
        } else if boot.reached == 1 {
          assert After(journal, boot) == journal + [records[0]];
        } else {
          assert After(journal, boot) == journal;
        }
      }
  }

  lemma {:induction false} JournalKeeps(boots: seq<Boot>) returns (c: Option<Manifest>)
    requires AllWellFormed(boots)
    ensures CommittedSoFar(Journal(boots), c)
  {
    if boots == [] {
      c := None;
    } else {
      var before := JournalKeeps(boots[..|boots| - 1]);
      c := BootKeeps(Journal(boots[..|boots| - 1]), before, boots[|boots| - 1]);
    }
  }

  /** Over any sequence of starts and crashes every committed manifest is an additive extension of
      every manifest committed before it. */
  lemma CommittedManifestsOnlyGrow(boots: seq<Boot>, i: nat, j: nat)
    requires AllWellFormed(boots) && i < j < |Journal(boots)|
    requires Journal(boots)[i].phase.Committed? && Journal(boots)[j].phase.Committed?
    ensures Extends(Journal(boots)[i].desired, Journal(boots)[j].desired)
  {
    var c := JournalKeeps(boots);
  }

  /** A configuration that differs from the committed one is accepted exactly when it extends it: starting
      with it then ends committed on it, and otherwise leaves the journal alone. */
  lemma ExtensionIsAccepted(journal: seq<Record>, boot: Boot)
    requires journal != [] && journal[|journal| - 1].phase.Committed? && boot.reached >= 2
    requires boot.desired != journal[|journal| - 1].desired
    ensures var m := journal[|journal| - 1].desired;
      if Extends(m, boot.desired)
      then After(journal, boot) == journal + [Record(Some(m), boot.desired, Prepared), Record(Some(m), boot.desired, Committed)]
      else After(journal, boot) == journal
  {
  }

  /** While the latest record is only prepared, a configuration other than the one before it is accepted exactly
      when it extends the prepared one, and what was committed before stays recorded as the previous one. */
  lemma ExtensionOfPreparedIsAccepted(journal: seq<Record>, boot: Boot)
    requires journal != [] && journal[|journal| - 1].phase.Prepared? && boot.reached >= 2
    requires journal[|journal| - 1].previous != Some(boot.desired)
    ensures var r := journal[|journal| - 1];
      if Extends(r.desired, boot.desired)
      then After(journal, boot) == journal + [Record(r.previous, boot.desired, Prepared), Record(r.previous, boot.desired, Committed)]
      else After(journal, boot) == journal
  {
  }

  /** The first configuration of all is accepted. */
  lemma FirstIsAccepted(boot: Boot)
    requires boot.reached >= 2
    ensures After([], boot) == [Record(None, boot.desired, Prepared), Record(None, boot.desired, Committed)]
  {
  }

  /** What an extension keeps, field by field: every subscription of every module is still there, for the
      same kind and type, with as many retries and at least its aliases. */
  lemma ExtensionKeepsEverything(was: Manifest, now: Manifest, i: nat, q: nat) returns (j: nat, p: nat)
    requires Extends(was, now) && i < |was.modules| && q < |was.modules[i].subscriptions|
    ensures was.settings == now.settings && forall path :: path in was.modulePaths ==> path in now.modulePaths
    ensures j < |now.modules| && now.modules[j].path == was.modules[i].path && now.modules[j].pathToken == was.modules[i].pathToken
    ensures now.modules[j].durableName == was.modules[i].durableName
    ensures now.modules[j].deliveryConcurrency == was.modules[i].deliveryConcurrency
    ensures p < |now.modules[j].subscriptions|
    ensures var a, b := was.modules[i].subscriptions[q], now.modules[j].subscriptions[p];
      && a.kind == b.kind && a.typeName == b.typeName && a.retries == b.retries
      && (forall alias :: alias in a.aliases ==> alias in b.aliases)
      && forall k :: 0 <= k < p ==> !(now.modules[j].subscriptions[k].kind == a.kind && now.modules[j].subscriptions[k].typeName == a.typeName)
  {
    assert ModuleKept(was.modules[i], now.modules);
    j :| LastFor(now.modules, was.modules[i].path, j) && ContractExtends(was.modules[i], now.modules[j]);
    assert Kept(was.modules[i].subscriptions[q], now.modules[j].subscriptions);
    p :| FirstMatch(was.modules[i].subscriptions[q], now.modules[j].subscriptions, p)
         && Widens(was.modules[i].subscriptions[q], now.modules[j].subscriptions[p]);
    var a, b := was.modules[i].subscriptions[q].(aliases := []), now.modules[j].subscriptions[p].(aliases := []);
    assert a == b && a.kind == b.kind && a.typeName == b.typeName && a.retries == b.retries;
    var x, y := was.modules[i].(subscriptions := []), now.modules[j].(subscriptions := []);
    assert x == y && x.pathToken == y.pathToken && x.durableName == y.durableName && x.deliveryConcurrency == y.deliveryConcurrency;
  }

  /** The additions a later start may make, one at a time: a module path, a contract for a new path, a
      subscription with no other of its kind and type after it, an alias of a subscription. */
  lemma PathIsAddition(m: Manifest, path: string)
    requires WellFormed(m)
    ensures Extends(m, m.(modulePaths := m.modulePaths + [path]))
  {
    ExtendsReflexive(m);
  }

  lemma ModuleIsAddition(m: Manifest, added: Contract)
    requires WellFormed(m) && forall i :: 0 <= i < |m.modules| ==> m.modules[i].path != added.path
    ensures Extends(m, m.(modules := m.modules + [added]))
  {
    hide ContractExtends;
    var modules := m.modules + [added];
    forall i | 0 <= i < |m.modules| ensures ModuleKept(m.modules[i], modules) {
      ContractReflexive(m, i);
      assert modules[i] == m.modules[i] && LastFor(modules, m.modules[i].path, i);
    }
  }

  /** The contract at `i` replaced by one for the same path that extends it. */
  lemma ContractIsAddition(m: Manifest, i: nat, now: Contract)
    requires WellFormed(m) && i < |m.modules| && now.path == m.modules[i].path && ContractExtends(m.modules[i], now)
    ensures Extends(m, m.(modules := m.modules[i := now]))
  {
    hide ContractExtends;
    var modules := m.modules[i := now];
    forall k | 0 <= k < |m.modules| ensures ModuleKept(m.modules[k], modules) {
      ContractReflexive(m, k);
      assert LastFor(modules, m.modules[k].path, k);
    }
  }

  lemma SubscriptionIsAddition(m: Manifest, i: nat, p: nat, added: Subscription)
    requires WellFormed(m) && i < |m.modules| && p <= |m.modules[i].subscriptions|
    requires forall q :: p <= q < |m.modules[i].subscriptions| ==>
      m.modules[i].subscriptions[q].kind != added.kind || m.modules[i].subscriptions[q].typeName != added.typeName
    ensures var was := m.modules[i].subscriptions;
      Extends(m, m.(modules := m.modules[i := m.modules[i].(subscriptions := was[..p] + [added] + was[p..])]))
  {
    var was := m.modules[i].subscriptions;
    var now := was[..p] + [added] + was[p..];
    forall q | 0 <= q < |was| ensures Kept(was[q], now) {
      assert FirstMatch(was[q], now, if q < p then q else q + 1);
    }
    ContractIsAddition(m, i, m.modules[i].(subscriptions := now));
  }

  lemma AliasIsAddition(m: Manifest, i: nat, q: nat, alias: string)
    requires WellFormed(m) && i < |m.modules| && q < |m.modules[i].subscriptions|
    ensures var was := m.modules[i].subscriptions;
      Extends(m, m.(modules := m.modules[i := m.modules[i].(subscriptions := was[q := was[q].(aliases := was[q].aliases + [alias])])]))
  {
    var was := m.modules[i].subscriptions;
    var now := was[q := was[q].(aliases := was[q].aliases + [alias])];
    forall k | 0 <= k < |was| ensures Kept(was[k], now) { assert FirstMatch(was[k], now, k) && Widens(was[k], now[k]); }
    ContractIsAddition(m, i, m.modules[i].(subscriptions := now));
  }

  /** After any history, starting again with the configuration the journal last recorded, crashed or
      not, is accepted and ends committed on it. */
  lemma RestartCompletes(boots: seq<Boot>, boot: Boot)
    requires AllWellFormed(boots) && Journal(boots) != []
    requires boot.desired == Latest(Journal(boots)).value.desired && boot.reached >= 2
    ensures !PlanFor(Latest(Journal(boots)), boot.desired).Incompatible?
    ensures Latest(Journal(boots + [boot])).Some?
    ensures Latest(Journal(boots + [boot])).value.desired == boot.desired
    ensures Latest(Journal(boots + [boot])).value.phase.Committed?
  {
    var c := JournalKeeps(boots);
    ExtendsReflexive(boot.desired);
    assert (boots + [boot])[..|boots|] == boots;
  }

  /** A configuration prepared but never committed can be taken back: starting with the committed one
      again is accepted and ends committed on it. */
  lemma RollbackCompletes(boots: seq<Boot>, boot: Boot)
    requires AllWellFormed(boots) && Journal(boots) != []
    requires Latest(Journal(boots)).value.phase.Prepared? && Latest(Journal(boots)).value.previous == Some(boot.desired)
    requires boot.reached >= 1
    ensures Latest(Journal(boots + [boot])).Some?
    ensures Latest(Journal(boots + [boot])).value == Record(Some(boot.desired), boot.desired, Committed)
  {
    assert (boots + [boot])[..|boots|] == boots;
  }

  /** A start that is refused, or dies before its first publish, leaves the journal as it was; one that
      is accepted and lives leaves it committed on its configuration. */
  lemma StartIsAllOrPrepared(journal: seq<Record>, boot: Boot)
    ensures journal <= After(journal, boot)
    ensures PlanFor(Latest(journal), boot.desired).Incompatible? || boot.reached == 0 ==> After(journal, boot) == journal
    ensures !PlanFor(Latest(journal), boot.desired).Incompatible? && boot.reached >= 2 ==>
      Latest(After(journal, boot)).Some? && Latest(After(journal, boot)).value.desired == boot.desired
      && Latest(After(journal, boot)).value.phase.Committed?
  {
  }
}
