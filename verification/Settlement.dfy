/** The durable settlement protocol of the mailbox records of one settlement subject.

    A delivery reads the latest settlement on the record's subject, calls the handler when
    none of its outcomes is recorded yet, records the outcome with a compare-and-set publish
    and only then releases the record.  Deliveries overlap, replies get lost, the process
    crashes between any two broker calls and startup deletes orphaned settlements. */
module Settlement {
  import opened Common

  datatype Disposition = Acknowledge | Discard | Retry

  /** What the mailbox records of one settlement subject share: the module they are for, the message
      id they are settled under and the subscription's retry limit. */
  datatype Subject = Subject(target: string, id: string, limit: nat)

  /** A mailbox record as its data reads: whether it unmarshals, the message id and target path found
      (empty when missing), and whether everything else that delivery checks is in order. */
  datatype Record = Record(sequence: nat, parses: bool, id: string, target: string, complete: bool)

  predicate HexDigit(ch: char)
  {
    '0' <= ch <= '9' || 'a' <= ch <= 'f' || 'A' <= ch <= 'F'
  }

  predicate ValidUuid(id: string)
  {
    |id| == 36 && forall i :: 0 <= i < |id| ==> if i == 8 || i == 13 || i == 18 || i == 23 then id[i] == '-' else HexDigit(id[i])
  }

  const HexDigits := "0123456789abcdefABCDEF"

  /** Five groups of hexadecimal digits of either case, 8, 4, 4, 4 and 12 of them, with hyphens between. */
  lemma UuidIs(a: string, b: string, c: string, d: string, e: string)
    requires |a| == 8 && |b| == |c| == |d| == 4 && |e| == 12
    ensures ValidUuid(a + "-" + b + "-" + c + "-" + d + "-" + e) <==> AllHex(a) && AllHex(b) && AllHex(c) && AllHex(d) && AllHex(e)
  {
    var id := a + "-" + b + "-" + c + "-" + d + "-" + e;
    assert id[..8] == a && id[9..13] == b && id[14..18] == c && id[19..23] == d && id[24..] == e;
    AllHexAre(id, 0, 8);
    AllHexAre(id, 9, 13);
    AllHexAre(id, 14, 18);
    AllHexAre(id, 19, 23);
    AllHexAre(id, 24, 36);
  }

  ghost predicate AllHex(group: string)
  {
    forall ch :: ch in group ==> ch in HexDigits
  }

  lemma AllHexAre(id: string, from: nat, to: nat)
    requires from <= to <= |id|
    ensures AllHex(id[from..to]) <==> forall i :: from <= i < to ==> HexDigit(id[i])
  {
    forall i | from <= i < to ensures HexDigit(id[i]) <==> id[i] in HexDigits { HexDigitIs(id[i]); }
    forall i | from <= i < to ensures id[i] in id[from..to] { assert id[from..to][i - from] == id[i]; }
  }

  lemma HexDigitIs(ch: char)
    ensures HexDigit(ch) <==> ch in HexDigits
  {
    if '0' <= ch <= '9' { assert HexDigits[ch as int - '0' as int] == ch; }
    if 'a' <= ch <= 'f' { assert HexDigits[ch as int - 'a' as int + 10] == ch; }
    if 'A' <= ch <= 'F' { assert HexDigits[ch as int - 'A' as int + 16] == ch; }
  }

  /** A record is settled under its own message id; one without an id gets a UUID made from its
      sequence. */
  predicate Addressed(r: Record, c: Subject)
  {
    if r.id != "" then r.id == c.id else ValidUuid(c.id)
  }

  /** Delivery can offer the record to a handler. */
  predicate Decodes(r: Record, c: Subject)
  {
    r.parses && ValidUuid(r.id) && r.target == c.target && r.complete
  }

  /** Startup sees that a settlement on this subject belongs to the record its header names. */
  predicate Recognised(r: Record, c: Subject)
  {
    r.parses && r.id == c.id && r.target == c.target
  }

  /** The identity of a settlement: its target and message id are those of the subject, and its
      disposition id is a function of these two fields. */
  datatype Settlement = Settlement(state: Disposition, retries: nat)
  {
    predicate Terminal() { !state.Retry? }
  }

  /** A settlement on the metadata stream, with the mailbox sequence in its header. */
  datatype Stored = Stored(sequence: nat, settlement: Settlement, record: Record)

  /** What a handler call comes to; a panic counts as retryable. */
  datatype HandlerResult = Succeeded | FailedRetryable | FailedForGood

  /** Retries panics and retryable errors within the limit; every other failure is discarded. */
  function DeliverySettlementState(result: HandlerResult, retry: nat, limit: nat): Disposition
  {
    if result.Succeeded? then Acknowledge
    else if result.FailedRetryable? && retry < limit then Retry
    else Discard
  }

  /** The settlement a handler result calls for after `retry` recorded retries. */
  function Desired(result: HandlerResult, retry: nat, limit: nat): Settlement
  {
    var state := DeliverySettlementState(result, retry, limit);
    Settlement(state, if state.Retry? then retry + 1 else retry)
  }

  /** Where one delivery stands.  `sequence` is the settlement revision it last saw, 0 for none. */
  datatype Phase =
    | Loading
    | Handling(retry: nat, sequence: nat)
    | Committing(expected: nat, desired: Settlement)
    | Rereading(desired: Settlement)
    | Finishing(discard: bool)
    | Purging
    | Ended

  datatype Delivery = Delivery(record: Record, phase: Phase)

  /** A publish request whose caller stopped waiting; the broker may still apply it. */
  datatype Publish = Publish(expected: nat, desired: Settlement, record: Record)

  datatype State = State(
    subject: Subject,
    published: set<Record>,           // mailbox records ever published under this subject
    mailbox: set<Record>,                // those still in the mailbox
    log: seq<Stored>,                 // settlements now on the subject, oldest first
    next: nat,                        // last sequence the metadata stream has used
    dedupe: map<Settlement, nat>,     // message ids the broker remembers, with their sequence
    deliveries: map<nat, Delivery>,
    publishes: set<Publish>,          // abandoned publish requests
    releases: set<(Record, bool)>,    // abandoned ack (false) and term (true) requests
    purges: nat,                      // abandoned purge requests
    doomed: set<nat>,                 // settlements startup found orphaned and will delete
    running: bool,
    stores: seq<Stored>,              // history: every settlement ever stored
    releasedBy: map<Record, bool>)    // history: the verb that removed each record

  datatype Event =
    | PublishRecord(record: Record)
    | Begin(delivery: nat, record: Record)
    | Load(delivery: nat)
    | CallHandler(delivery: nat, result: HandlerResult)
    | FindMalformed(delivery: nat)
    | StoreSettlement(delivery: nat, sequence: nat)
    | Deduplicate(delivery: nat)
    | GiveUpPublish(delivery: nat, inFlight: bool)
    | ApplyPublish(request: Publish, sequence: nat)
    | Reread(delivery: nat)
    | Release(delivery: nat)
    | GiveUpRelease(delivery: nat)
    | ApplyRelease(release: (Record, bool))
    | Purge(delivery: nat)
    | GiveUpPurge(delivery: nat)
    | ApplyPurge
    | Abandon(delivery: nat)
    | ForgetId(id: Settlement)
    | Crash
    | FindOrphan(orphan: Stored)
    | DeleteOrphan(sequence: nat)
    | Start

  function Init(c: Subject): State
  {
    State(c, {}, {}, [], 0, map[], map[], {}, {}, 0, {}, true, [], map[])
  }

  function LastSequence(log: seq<Stored>): nat
  {
    if log == [] then 0 else log[|log| - 1].sequence
  }

  predicate In(s: State, d: nat)
  {
    d in s.deliveries
  }

  predicate Enabled(s: State, e: Event)
  {
    match e
    case PublishRecord(r) => Addressed(r, s.subject) && forall q :: q in s.published ==> q.sequence != r.sequence
    case Begin(d, r) => s.running && r in s.published && d !in s.deliveries
    case Load(d) => d in s.deliveries && s.deliveries[d].phase.Loading?
    case CallHandler(d, _) =>
      d in s.deliveries && s.deliveries[d].phase.Handling? && Decodes(s.deliveries[d].record, s.subject)
    case FindMalformed(d) =>
      d in s.deliveries && s.deliveries[d].phase.Handling? && !Decodes(s.deliveries[d].record, s.subject)
    case StoreSettlement(d, q) =>
      d in s.deliveries && s.deliveries[d].phase.Committing? && s.deliveries[d].phase.expected == LastSequence(s.log) && q > s.next
    case Deduplicate(d) =>
      d in s.deliveries && s.deliveries[d].phase.Committing? && s.deliveries[d].phase.desired in s.dedupe
    case GiveUpPublish(d, _) => d in s.deliveries && s.deliveries[d].phase.Committing?
    case ApplyPublish(p, q) => p in s.publishes && p.expected == LastSequence(s.log) && q > s.next
    case Reread(d) => d in s.deliveries && s.deliveries[d].phase.Rereading?
    case Release(d) => d in s.deliveries && s.deliveries[d].phase.Finishing?
    case GiveUpRelease(d) => d in s.deliveries && s.deliveries[d].phase.Finishing?
    case ApplyRelease(p) => p in s.releases
    case Purge(d) => d in s.deliveries && s.deliveries[d].phase.Purging?
    case GiveUpPurge(d) => d in s.deliveries && s.deliveries[d].phase.Purging?
    case ApplyPurge => s.purges > 0
    case Abandon(d) => d in s.deliveries
    case ForgetId(id) => true
    case Crash => true
    case FindOrphan(o) => !s.running && o in s.log && (o.record !in s.mailbox || !Recognised(o.record, s.subject))
    case DeleteOrphan(q) => !s.running && q in s.doomed
    case Start => !s.running
  }

  /** What a delivery does once its settlement counts as committed at `sequence`. */
  function AfterCommit(desired: Settlement, sequence: nat): Phase
  {
    if desired.state.Retry? then Handling(desired.retries, sequence) else Finishing(desired.state.Discard?)
  }

  /** What a delivery does with the latest settlement it read.  One under an id that is not a UUID is
      refused, and the delivery fails. */
  function AfterLoad(id: string, log: seq<Stored>): Phase
  {
    if log == [] then Handling(0, 0)
    else if !ValidUuid(id) then Ended
    else
      var last := log[|log| - 1];
      if last.settlement.state.Retry? then Handling(last.settlement.retries, last.sequence)
      else Finishing(last.settlement.state.Discard?)
  }

  function To(s: State, d: nat, phase: Phase): State
    requires In(s, d)
  {
    s.(deliveries := s.deliveries[d := s.deliveries[d].(phase := phase)])
  }

  /** The broker appends a settlement and remembers its message id. */
  function Append(s: State, desired: Settlement, record: Record, sequence: nat): State
  {
    var stored := Stored(sequence, desired, record);
    s.(log := s.log + [stored], stores := s.stores + [stored], next := sequence, dedupe := s.dedupe[desired := sequence])
  }

  /** The broker removes a record that is still there. */
  function Remove(s: State, record: Record, discard: bool): State
  {
    if record in s.mailbox
    then s.(mailbox := s.mailbox - {record}, releasedBy := s.releasedBy[record := discard])
    else s
  }

  function Without(log: seq<Stored>, sequence: nat): seq<Stored>
  {
    if log == [] then [] else (if log[0].sequence == sequence then [] else [log[0]]) + Without(log[1..], sequence)
  }

  function EndAll(deliveries: map<nat, Delivery>): map<nat, Delivery>
  {
    map d | d in deliveries :: deliveries[d].(phase := Ended)
  }

  function Apply(s: State, e: Event): State
    requires Enabled(s, e)
  {
    match e
    case PublishRecord(r) => s.(published := s.published + {r}, mailbox := s.mailbox + {r})
    case Begin(d, r) => s.(deliveries := s.deliveries[d := Delivery(r, Loading)])
    case Load(d) => To(s, d, AfterLoad(s.subject.id, s.log))
    case CallHandler(d, result) =>
      var p := s.deliveries[d].phase;
      To(s, d, Committing(p.sequence, Desired(result, p.retry, s.subject.limit)))
    case FindMalformed(d) =>
      var p := s.deliveries[d].phase;
      To(s, d, Committing(p.sequence, Settlement(Discard, p.retry)))
    case StoreSettlement(d, q) =>
      var p := s.deliveries[d].phase;
      To(Append(s, p.desired, s.deliveries[d].record, q), d, AfterCommit(p.desired, q))
    case Deduplicate(d) =>
      var p := s.deliveries[d].phase;
      To(s, d, AfterCommit(p.desired, s.dedupe[p.desired]))
    case GiveUpPublish(d, inFlight) =>
      var p := s.deliveries[d].phase;
      var s := if inFlight then s.(publishes := s.publishes + {Publish(p.expected, p.desired, s.deliveries[d].record)}) else s;
      To(s, d, Rereading(p.desired))
    case ApplyPublish(p, q) => Append(s, p.desired, p.record, q).(publishes := s.publishes - {p})
    case Reread(d) =>
      var desired := s.deliveries[d].phase.desired;
      if s.log != [] && ValidUuid(s.subject.id) && s.log[|s.log| - 1].settlement == desired
      then To(s, d, AfterCommit(desired, LastSequence(s.log)))
      else To(s, d, Ended)
    case Release(d) => To(Remove(s, s.deliveries[d].record, s.deliveries[d].phase.discard), d, Purging)
    case GiveUpRelease(d) =>
      To(s.(releases := s.releases + {(s.deliveries[d].record, s.deliveries[d].phase.discard)}), d, Ended)
    case ApplyRelease(p) => Remove(s, p.0, p.1).(releases := s.releases - {p})
    case Purge(d) => To(s.(log := []), d, Ended)
    case GiveUpPurge(d) => To(s.(purges := s.purges + 1), d, Ended)
    case ApplyPurge => s.(log := [], purges := s.purges - 1)
    case Abandon(d) => To(s, d, Ended)
    case ForgetId(id) => s.(dedupe := s.dedupe - {id})
    case Crash => s.(deliveries := EndAll(s.deliveries), running := false, doomed := {})
    case FindOrphan(o) => s.(doomed := s.doomed + {o.sequence})
    case DeleteOrphan(q) => s.(log := Without(s.log, q), doomed := s.doomed - {q})
    case Start => s.(running := true, doomed := {})
  }

  /** A run from the initial state, one event a step. */
  ghost predicate Run(c: Subject, events: seq<Event>, states: seq<State>)
  {
    && |states| == |events| + 1 && states[0] == Init(c)
    && forall i :: 0 <= i < |events| ==> Enabled(states[i], events[i]) && states[i + 1] == Apply(states[i], events[i])
  }

  /** The condition a publisher can check: no two mailbox records share the target and message id
      that make up the subject. */
  ghost predicate Exclusive(s: State)
  {
    forall q, r :: q in s.published && r in s.published ==> q == r
  }

  // ---------------------------------------------------------------- the invariant

  /** Retry counts run 1, 2, 3, ... within the limit; a terminal settlement comes last and carries
      the count reached. */
  ghost predicate Shape(stores: seq<Stored>, limit: nat)
  {
    forall i :: 0 <= i < |stores| ==>
      if i < |stores| - 1 || stores[i].settlement.state.Retry?
      then stores[i].settlement == Settlement(Retry, i + 1) && i + 1 <= limit
      else stores[i].settlement.retries == i
  }

  /** A stored RETRY revision (or the empty subject) a delivery may build on. */
  ghost predicate Basis(stores: seq<Stored>, retry: nat, sequence: nat)
  {
    (retry == 0 && sequence == 0) || exists x :: x in stores && x.sequence == sequence && x.settlement == Settlement(Retry, retry)
  }

  ghost predicate CommitOk(stores: seq<Stored>, limit: nat, expected: nat, desired: Settlement)
  {
    if desired.state.Retry?
    then 0 < desired.retries <= limit && Basis(stores, desired.retries - 1, expected)
    else Basis(stores, desired.retries, expected)
  }

  /** While the record is live, what a release carries is the verb of the one terminal settlement. */
  ghost predicate ReleaseOk(stores: seq<Stored>, mailbox: set<Record>, record: Record, discard: bool)
  {
    record in mailbox ==> stores != [] && Verb(stores[|stores| - 1].settlement, discard)
  }

  predicate Verb(settlement: Settlement, discard: bool)
  {
    settlement.Terminal() && settlement.state.Discard? == discard
  }

  ghost predicate DeliveryOk(s: State, d: Delivery)
  {
    && d.record in s.published
    && match d.phase
       case Handling(retry, sequence) => Basis(s.stores, retry, sequence)
       case Committing(expected, desired) => CommitOk(s.stores, s.subject.limit, expected, desired)
       case Rereading(desired) => true
       case Finishing(discard) => ReleaseOk(s.stores, s.mailbox, d.record, discard)
       case Purging => d.record !in s.mailbox
       case _ => true
  }

  ghost predicate FirstTerminal(stores: seq<Stored>, k: nat)
  {
    k < |stores| && stores[k].settlement.Terminal() && forall i :: 0 <= i < k ==> !stores[i].settlement.Terminal()
  }

  ghost predicate BrokerOk(s: State)
  {
    && (forall i, j :: 0 <= i < j < |s.stores| ==> s.stores[i].sequence < s.stores[j].sequence)
    && (forall i :: 0 <= i < |s.stores| ==> 0 < s.stores[i].sequence <= s.next)
    && (forall x :: x in s.log ==> x in s.stores)
    && (forall x :: x in s.stores ==> x.record in s.published)
    && (forall id :: id in s.dedupe ==> exists x :: x in s.stores && x.settlement == id && x.sequence == s.dedupe[id])
    && s.mailbox <= s.published
  }

  /** Every record on the subject is one that startup recognises. */
  ghost predicate AllRecognised(s: State)
  {
    forall r :: r in s.published ==> Recognised(r, s.subject)
  }

  ghost predicate Inv(s: State)
  {
    && BrokerOk(s) && Exclusive(s) && AllRecognised(s)
    && (forall r :: r in s.mailbox ==> s.log == s.stores && Shape(s.stores, s.subject.limit))
    && (forall d :: d in s.deliveries ==> DeliveryOk(s, s.deliveries[d]))
    && (forall p :: p in s.publishes ==> CommitOk(s.stores, s.subject.limit, p.expected, p.desired) && p.record in s.published)
    && (forall p :: p in s.releases ==> ReleaseOk(s.stores, s.mailbox, p.0, p.1) && p.0 in s.published)
    && (s.purges > 0 || s.doomed != {} ==> s.mailbox == {} && s.published != {})
    && (s.published - s.mailbox != {} ==> exists k: nat :: Released(s, k))
    && (s.published == {} ==> s.stores == [] && s.log == [])
  }

  /** The record has left, by the verb of the first terminal settlement stored, which is the `k`-th. */
  ghost predicate Released(s: State, k: nat)
  {
    && FirstTerminal(s.stores, k) && Shape(s.stores[..k + 1], s.subject.limit)
    && forall r :: r in s.published && r !in s.mailbox ==> r in s.releasedBy && Verb(s.stores[k].settlement, s.releasedBy[r])
  }

  // ---------------------------------------------------------------- preservation

  lemma PhaseKeeps(s: State, d: nat, phase: Phase)
    requires Inv(s) && In(s, d) && DeliveryOk(s, s.deliveries[d].(phase := phase))
    ensures Inv(To(s, d, phase))
  {
    SideKeeps(s, To(s, d, phase));
  }

  lemma SameBasis(s: State, t: State, d: Delivery)
    requires DeliveryOk(s, d) && t.stores == s.stores && t.mailbox == s.mailbox && t.published == s.published && t.subject == s.subject
    ensures DeliveryOk(t, d)
  {
  }

  /** While the record is live a settlement built on the latest revision continues the count. */
  lemma LatestIsBasis(s: State, retry: nat)
    requires BrokerOk(s) && Basis(s.stores, retry, LastSequence(s.log)) && s.log == s.stores && Shape(s.stores, s.subject.limit)
    ensures retry == |s.stores| && (s.stores != [] ==> s.stores[|s.stores| - 1].settlement == Settlement(Retry, retry))
  {
    if s.stores != [] {
      var n := |s.stores| - 1;
      assert s.stores[n].sequence > 0;
      var i :| 0 <= i <= n && s.stores[i].sequence == s.stores[n].sequence && s.stores[i].settlement == Settlement(Retry, retry);
      assert i == n;
    } else if !(retry == 0 && LastSequence(s.log) == 0) {
      assert false;
    }
  }

  lemma GrowBasis(s: State, t: State, retry: nat, sequence: nat)
    requires Basis(s.stores, retry, sequence) && forall x :: x in s.stores ==> x in t.stores
    ensures Basis(t.stores, retry, sequence)
  {
  }

  lemma AppendKeepsBroker(s: State, desired: Settlement, record: Record, q: nat)
    requires BrokerOk(s) && q > s.next && record in s.published
    ensures BrokerOk(Append(s, desired, record, q))
  {
    var t := Append(s, desired, record, q);
    assert t.stores[|s.stores|] == Stored(q, desired, record);
    forall id | id in t.dedupe ensures exists x :: x in t.stores && x.settlement == id && x.sequence == t.dedupe[id] {
      if id != desired {
        var x :| x in s.stores && x.settlement == id && x.sequence == s.dedupe[id];
        assert x in t.stores;
      }
    }
  }

  /** What is pending stays sound when a settlement is appended. */
  lemma AppendKeepsPending(s: State, t: State)
    requires Inv(s) && t.subject == s.subject && t.mailbox == s.mailbox && t.published == s.published && t.deliveries == s.deliveries
    requires t.publishes == s.publishes && t.releases == s.releases
    requires s.stores <= t.stores && (s.mailbox != {} ==> !EndsTerminal(s.stores))
    ensures forall d :: d in t.deliveries ==> DeliveryOk(t, t.deliveries[d])
    ensures forall p :: p in t.publishes ==> CommitOk(t.stores, t.subject.limit, p.expected, p.desired) && p.record in t.published
    ensures forall p :: p in t.releases ==> ReleaseOk(t.stores, t.mailbox, p.0, p.1) && p.0 in t.published
  {
    hide ValidUuid, Recognised, Addressed, Decodes, Shape, Released, BrokerOk;
    assert forall x :: x in s.stores ==> x in t.stores;
    forall d | d in t.deliveries ensures DeliveryOk(t, t.deliveries[d]) {
      GrowDelivery(s, t, s.deliveries[d]);
    }
    forall p | p in t.publishes ensures CommitOk(t.stores, t.subject.limit, p.expected, p.desired) {
      GrowCommit(s, t, p.expected, p.desired);
    }
    forall p | p in t.releases ensures ReleaseOk(t.stores, t.mailbox, p.0, p.1) {
      assert ReleaseOk(s.stores, s.mailbox, p.0, p.1);
    }
  }

  lemma AppendKeeps(s: State, desired: Settlement, record: Record, q: nat)
    requires Inv(s) && q > s.next && record in s.published && CommitOk(s.stores, s.subject.limit, LastSequence(s.log), desired)
    ensures Inv(Append(s, desired, record, q))
  {
    hide ValidUuid, Recognised, Addressed, Decodes, DeliveryOk, CommitOk, ReleaseOk;
    var t := Append(s, desired, record, q);
    AppendKeepsBroker(s, desired, record, q);
    if s.mailbox != {} { AppendKeepsShape(s, desired, record, q); }
    AppendKeepsPending(s, t);
    hide Shape, BrokerOk;
    if s.published - s.mailbox != {} {
      var k: nat :| Released(s, k);
      GrowReleased(s, t, k);
    }
  }

  lemma AppendKeepsShape(s: State, desired: Settlement, record: Record, q: nat)
    requires Inv(s) && s.mailbox != {} && CommitOk(s.stores, s.subject.limit, LastSequence(s.log), desired)
    ensures Append(s, desired, record, q).log == Append(s, desired, record, q).stores
    ensures Shape(Append(s, desired, record, q).stores, s.subject.limit) && !EndsTerminal(s.stores)
  {
    hide ValidUuid, Recognised, Addressed, Decodes;
    var r :| r in s.mailbox;
    LatestIsBasis(s, if desired.state.Retry? then desired.retries - 1 else desired.retries);
  }

  lemma GrowCommit(s: State, t: State, expected: nat, desired: Settlement)
    requires CommitOk(s.stores, s.subject.limit, expected, desired) && t.subject == s.subject && forall x :: x in s.stores ==> x in t.stores
    ensures CommitOk(t.stores, t.subject.limit, expected, desired)
  {
    GrowBasis(s, t, if desired.state.Retry? then desired.retries - 1 else desired.retries, expected);
  }

  lemma GrowReleased(s: State, t: State, k: nat)
    requires Released(s, k) && s.stores <= t.stores && t.subject == s.subject && t.published == s.published
    requires t.mailbox == s.mailbox && t.releasedBy == s.releasedBy
    ensures Released(t, k)
  {
    assert t.stores[..k + 1] == s.stores[..k + 1];
  }

  ghost predicate EndsTerminal(stores: seq<Stored>)
  {
    stores != [] && stores[|stores| - 1].settlement.Terminal()
  }

  lemma GrowDelivery(s: State, t: State, d: Delivery)
    requires DeliveryOk(s, d) && t.mailbox == s.mailbox && t.published == s.published && t.subject == s.subject
    requires forall x :: x in s.stores ==> x in t.stores
    requires s.mailbox != {} ==> !EndsTerminal(s.stores)
    ensures DeliveryOk(t, d)
  {
    match d.phase
    case Handling(retry, sequence) => GrowBasis(s, t, retry, sequence);
    case Committing(expected, desired) => GrowCommit(s, t, expected, desired);
    case _ =>
  }

  /** A settlement the broker still knows is, while the record is live, safe to act on. */
  lemma KnownIsSafe(s: State, desired: Settlement, sequence: nat, record: Record)
    requires Inv(s) && record in s.published
    requires exists x :: x in s.stores && x.settlement == desired && x.sequence == sequence
    ensures DeliveryOk(s, Delivery(record, AfterCommit(desired, sequence)))
  {
    if !desired.state.Retry? && record in s.mailbox {
      var i :| 0 <= i < |s.stores| && s.stores[i].settlement == desired && s.stores[i].sequence == sequence;
      assert i == |s.stores| - 1;
    }
  }

  lemma LastIsFirstTerminal(stores: seq<Stored>, limit: nat)
    requires Shape(stores, limit) && EndsTerminal(stores)
    ensures FirstTerminal(stores, |stores| - 1) && stores[..|stores|] == stores
  {
  }

  lemma RemoveKeeps(s: State, record: Record, discard: bool)
    requires Inv(s) && record in s.published && ReleaseOk(s.stores, s.mailbox, record, discard)
    ensures Inv(Remove(s, record, discard)) && record !in Remove(s, record, discard).mailbox
  {
    hide Basis, CommitOk, BrokerOk, ValidUuid, Recognised, Addressed, Decodes;
    var t := Remove(s, record, discard);
    if record in s.mailbox {
      assert BrokerOk(t) && t.mailbox == {} by { OnlyRecord(s, record); RemoveBroker(s, record, discard); }
      assert EndsTerminal(s.stores);
      LastIsFirstTerminal(s.stores, s.subject.limit);
      hide Shape, FirstTerminal;
      forall d | d in t.deliveries ensures DeliveryOk(t, t.deliveries[d]) {
        assert DeliveryOk(s, s.deliveries[d]);
      }
      assert Released(t, |s.stores| - 1);
    }
  }

  lemma OnlyRecord(s: State, record: Record)
    requires Inv(s) && record in s.mailbox
    ensures s.mailbox - {record} == {} && forall r :: r in s.published ==> r == record
  {
    assert forall r :: r in s.mailbox ==> r in s.published;
  }

  lemma RemoveBroker(s: State, record: Record, discard: bool)
    requires BrokerOk(s)
    ensures BrokerOk(Remove(s, record, discard))
  {
  }

  lemma ClearKeeps(s: State, log: seq<Stored>)
    requires Inv(s) && s.mailbox == {} && |log| <= |s.log| && forall x :: x in log ==> x in s.log
    ensures Inv(s.(log := log))
  {
    var t := s.(log := log);
    forall d | d in t.deliveries ensures DeliveryOk(t, t.deliveries[d]) {
      SameBasis(s, t, s.deliveries[d]);
    }
    forall p | p in t.publishes ensures CommitOk(t.stores, t.subject.limit, p.expected, p.desired) {
      assert CommitOk(s.stores, s.subject.limit, p.expected, p.desired);
    }
    if s.published - s.mailbox != {} {
      var k: nat :| Released(s, k);
      assert Released(t, k);
    }
  }

  lemma {:induction false} WithoutSubset(log: seq<Stored>, q: nat)
    ensures |Without(log, q)| <= |log| && forall x :: x in Without(log, q) ==> x in log
  {
    if log != [] { WithoutSubset(log[1..], q); }
  }

  /** The bookkeeping an event may change without touching anything the invariant relates. */
  lemma SideKeeps(s: State, t: State)
    requires Inv(s)
    requires t.(dedupe := s.dedupe, deliveries := s.deliveries, publishes := s.publishes, releases := s.releases,
                purges := s.purges, doomed := s.doomed, running := s.running) == s
    requires forall id :: id in t.dedupe ==> id in s.dedupe && t.dedupe[id] == s.dedupe[id]
    requires forall d :: d in t.deliveries ==> DeliveryOk(s, t.deliveries[d])
    requires forall p :: p in t.publishes ==> CommitOk(s.stores, s.subject.limit, p.expected, p.desired) && p.record in s.published
    requires forall p :: p in t.releases ==> ReleaseOk(s.stores, s.mailbox, p.0, p.1) && p.0 in s.published
    requires t.purges > 0 || t.doomed != {} ==> s.mailbox == {} && s.published != {}
    ensures Inv(t)
  {
    forall d | d in t.deliveries ensures DeliveryOk(t, t.deliveries[d]) { SameBasis(s, t, t.deliveries[d]); }
    forall p | p in t.publishes ensures CommitOk(t.stores, t.subject.limit, p.expected, p.desired) {
      assert CommitOk(s.stores, s.subject.limit, p.expected, p.desired);
    }
    if s.published - s.mailbox != {} {
      var k: nat :| Released(s, k);
      assert Released(t, k);
    }
  }

  lemma PublishFacts(s: State, r: Record)
    requires Enabled(s, PublishRecord(r)) && AllRecognised(Apply(s, PublishRecord(r)))
    ensures r !in s.published && Recognised(r, s.subject)
  {
  }

  lemma PublishKeeps(s: State, r: Record)
    requires Inv(s) && r !in s.published && Recognised(r, s.subject) && Exclusive(s.(published := s.published + {r}))
    ensures Inv(s.(published := s.published + {r}, mailbox := s.mailbox + {r}))
  {
    var t := s.(published := s.published + {r}, mailbox := s.mailbox + {r});
    assert r in t.published && forall q :: q in s.published ==> q in t.published;
    assert s.published == {};
    assert t.published - t.mailbox == {};
  }

  // ---------------------------------------------------------------- every event keeps the invariant

  lemma InitHolds(c: Subject)
    ensures Inv(Init(c))
  {
  }

  lemma StoreEventsKeep(s: State, e: Event)
    requires Inv(s) && Enabled(s, e) && (e.StoreSettlement? || e.ApplyPublish?)
    ensures Inv(Apply(s, e))
  {
    hide Shape, Released, Basis, FirstTerminal, ValidUuid, Recognised, Addressed, Decodes;
    match e
    case StoreSettlement(d, q) =>
      var x := s.deliveries[d];
      assert DeliveryOk(s, x);
      AppendKeeps(s, x.phase.desired, x.record, q);
      var t := Append(s, x.phase.desired, x.record, q);
      assert t.stores[|s.stores|] == Stored(q, x.phase.desired, x.record);
      KnownIsSafe(t, x.phase.desired, q, x.record);
      PhaseKeeps(t, d, AfterCommit(x.phase.desired, q));
    case ApplyPublish(p, q) =>
      AppendKeeps(s, p.desired, p.record, q);
      var t := Append(s, p.desired, p.record, q);
      SideKeeps(t, t.(publishes := s.publishes - {p}));
  }

  lemma DeliveryHolds(s: State, d: nat)
    requires Inv(s) && d in s.deliveries
    ensures DeliveryOk(s, s.deliveries[d])
  {
  }

  lemma LatestIsStored(s: State)
    requires Inv(s) && s.log != []
    ensures s.log[|s.log| - 1] in s.stores && LastSequence(s.log) == s.log[|s.log| - 1].sequence
  {
    hide Shape, Released, DeliveryOk, CommitOk, ReleaseOk, Recognised;
    assert s.log[|s.log| - 1] in s.log;
  }

  lemma RereadKeeps(s: State, d: nat)
    requires Inv(s) && Enabled(s, Reread(d))
    ensures Inv(Apply(s, Reread(d)))
  {
    hide Inv, Shape, Released, Basis, FirstTerminal, ValidUuid, Recognised, Addressed, Decodes;
    var x := s.deliveries[d];
    DeliveryHolds(s, d);
    if s.log != [] && ValidUuid(s.subject.id) && s.log[|s.log| - 1].settlement == x.phase.desired {
      LatestIsStored(s);
      KnownIsSafe(s, x.phase.desired, LastSequence(s.log), x.record);
      PhaseKeeps(s, d, AfterCommit(x.phase.desired, LastSequence(s.log)));
    } else {
      PhaseKeeps(s, d, Ended);
    }
  }

  lemma CommitEventsKeep(s: State, e: Event)
    requires Inv(s) && Enabled(s, e) && (e.Deduplicate? || e.GiveUpPublish? || e.Reread?)
    ensures Inv(Apply(s, e))
  {
    hide Shape, Released, Basis, FirstTerminal, ValidUuid, Recognised, Addressed, Decodes;
    var d := e.delivery;
    var x := s.deliveries[d];
    assert DeliveryOk(s, x);
    match e
    case Deduplicate(_) =>
      KnownIsSafe(s, x.phase.desired, s.dedupe[x.phase.desired], x.record);
      PhaseKeeps(s, d, AfterCommit(x.phase.desired, s.dedupe[x.phase.desired]));
    case GiveUpPublish(_, inFlight) =>
      var t := if inFlight then s.(publishes := s.publishes + {Publish(x.phase.expected, x.phase.desired, x.record)}) else s;
      SideKeeps(s, t);
      PhaseKeeps(t, d, Rereading(x.phase.desired));
    case Reread(_) => RereadKeeps(s, d);
  }

  /** A release that takes effect at once. */
  lemma ReleaseKeeps(s: State, d: nat)
    requires Inv(s) && Enabled(s, Release(d))
    ensures Inv(Apply(s, Release(d)))
  {
    hide Inv, Basis, CommitOk, ValidUuid, Recognised, Addressed, Decodes;
    var x := s.deliveries[d];
    DeliveryHolds(s, d);
    RemoveKeeps(s, x.record, x.phase.discard);
    PhaseKeeps(Remove(s, x.record, x.phase.discard), d, Purging);
  }

  lemma ReleaseEventsKeep(s: State, e: Event)
    requires Inv(s) && Enabled(s, e)
    requires e.Release? || e.GiveUpRelease? || e.ApplyRelease?
    ensures Inv(Apply(s, e))
  {
    hide Shape, Released, Basis, FirstTerminal, BrokerOk, CommitOk, ValidUuid, Recognised, Addressed, Decodes;
    if e.Release? {
      hide Inv;
      ReleaseKeeps(s, e.delivery);
    } else if e.GiveUpRelease? {
      var x := s.deliveries[e.delivery];
      DeliveryHolds(s, e.delivery);
      var t := s.(releases := s.releases + {(x.record, x.phase.discard)});
      SideKeeps(s, t);
      PhaseKeeps(t, e.delivery, Ended);
    } else {
      RemoveKeeps(s, e.release.0, e.release.1);
      SideKeeps(Remove(s, e.release.0, e.release.1), Apply(s, e));
    }
  }

  /** A purge that takes effect at once. */
  lemma PurgeKeeps(s: State, d: nat)
    requires Inv(s) && Enabled(s, Purge(d))
    ensures Inv(Apply(s, Purge(d)))
  {
    hide Inv, Basis, CommitOk, ValidUuid, Recognised, Addressed, Decodes;
    DeliveryHolds(s, d);
    GoneMeansEmpty(s, s.deliveries[d].record);
    ClearKeeps(s, []);
    PhaseKeeps(s.(log := []), d, Ended);
  }

  lemma PurgeEventsKeep(s: State, e: Event)
    requires Inv(s) && Enabled(s, e)
    requires e.Purge? || e.GiveUpPurge? || e.ApplyPurge?
    ensures Inv(Apply(s, e))
  {
    hide Shape, Released, Basis, FirstTerminal, BrokerOk, CommitOk, ValidUuid, Recognised, Addressed, Decodes;
    if e.Purge? {
      hide Inv;
      PurgeKeeps(s, e.delivery);
    } else if e.GiveUpPurge? {
      DeliveryHolds(s, e.delivery);
      GoneMeansEmpty(s, s.deliveries[e.delivery].record);
      var t := s.(purges := s.purges + 1);
      SideKeeps(s, t);
      PhaseKeeps(t, e.delivery, Ended);
    } else {
      ClearKeeps(s, []);
      SideKeeps(s.(log := []), Apply(s, e));
    }
  }

  lemma GoneMeansEmpty(s: State, r: Record)
    requires Inv(s) && r in s.published && r !in s.mailbox
    ensures s.mailbox == {}
  {
    assert forall q :: q in s.mailbox ==> q in s.published;
  }

  /** A delivery reads its subject, calls its handler or gives up. */
  lemma HandlingEventsKeep(s: State, e: Event)
    requires Inv(s) && Enabled(s, e) && (e.Load? || e.CallHandler? || e.FindMalformed? || e.Abandon?)
    ensures Inv(Apply(s, e))
  {
    hide Shape, Released, FirstTerminal, ValidUuid, Recognised, Addressed, Decodes;
    var d := e.delivery;
    assert DeliveryOk(s, s.deliveries[d]);
    var p := s.deliveries[d].phase;
    match e
    case Load(_) =>
      LoadIsSafe(s, s.deliveries[d].record);
      PhaseKeeps(s, d, AfterLoad(s.subject.id, s.log));
    case CallHandler(_, result) => PhaseKeeps(s, d, Committing(p.sequence, Desired(result, p.retry, s.subject.limit)));
    case FindMalformed(_) => PhaseKeeps(s, d, Committing(p.sequence, Settlement(Discard, p.retry)));
    case _ => PhaseKeeps(s, d, Ended);
  }

  lemma CrashKeeps(s: State)
    requires Inv(s)
    ensures Inv(Apply(s, Crash))
  {
    hide Shape, Released, FirstTerminal, ValidUuid, Recognised, Addressed, Decodes;
    forall d | d in s.deliveries ensures DeliveryOk(s, EndAll(s.deliveries)[d]) { assert DeliveryOk(s, s.deliveries[d]); }
    SideKeeps(s, Apply(s, Crash));
  }

  lemma OrphanKeeps(s: State, e: Event)
    requires Inv(s) && Enabled(s, e) && (e.FindOrphan? || e.DeleteOrphan?)
    ensures Inv(Apply(s, e))
  {
    hide Shape, Released, FirstTerminal, ValidUuid, Recognised, Addressed, Decodes;
    if e.FindOrphan? {
      assert e.orphan in s.stores;
      GoneMeansEmpty(s, e.orphan.record);
      SideKeeps(s, Apply(s, e));
    } else {
      WithoutSubset(s.log, e.sequence);
      ClearKeeps(s, Without(s.log, e.sequence));
      SideKeeps(s.(log := Without(s.log, e.sequence)), Apply(s, e));
    }
  }

  /** Deliveries begin, the broker forgets ids, the process crashes and reconciles at startup. */
  lemma RestartEventsKeep(s: State, e: Event)
    requires Inv(s) && Enabled(s, e) && (e.Begin? || e.ForgetId? || e.Crash? || e.FindOrphan? || e.DeleteOrphan? || e.Start?)
    ensures Inv(Apply(s, e))
  {
    hide Shape, Released, FirstTerminal, ValidUuid, Recognised, Addressed, Decodes;
    if e.Crash? { hide Inv; CrashKeeps(s); }
    else if e.FindOrphan? || e.DeleteOrphan? { hide Inv; OrphanKeeps(s, e); }
    else { SideKeeps(s, Apply(s, e)); }
  }

  /** Every event keeps the invariant as long as no second record shares the subject and startup
      recognises the one that is there. */
  lemma StepKeeps(s: State, e: Event)
    requires Inv(s) && Enabled(s, e) && Exclusive(Apply(s, e)) && AllRecognised(Apply(s, e))
    ensures Inv(Apply(s, e))
  {
    hide Inv;
    if e.PublishRecord? {
      PublishFacts(s, e.record);
      PublishKeeps(s, e.record);
    } else if e.Load? || e.CallHandler? || e.FindMalformed? || e.Abandon? {
      HandlingEventsKeep(s, e);
    } else if e.Release? || e.GiveUpRelease? || e.ApplyRelease? {
      ReleaseEventsKeep(s, e);
    } else if e.Purge? || e.GiveUpPurge? || e.ApplyPurge? {
      PurgeEventsKeep(s, e);
    } else if e.Begin? || e.ForgetId? || e.Crash? || e.FindOrphan? || e.DeleteOrphan? || e.Start? {
      RestartEventsKeep(s, e);
    } else if e.StoreSettlement? || e.ApplyPublish? {
      StoreEventsKeep(s, e);
    } else {
      CommitEventsKeep(s, e);
    }
  }

  lemma LoadIsSafe(s: State, r: Record)
    requires Inv(s) && r in s.published
    ensures DeliveryOk(s, Delivery(r, AfterLoad(s.subject.id, s.log)))
  {
    if s.log != [] {
      var last := s.log[|s.log| - 1];
      assert last in s.stores;
      KnownIsSafe(s, last.settlement, last.sequence, r);
    }
  }

  // ---------------------------------------------------------------- records startup does not recognise

  const Refused := Settlement(Discard, 0)

  /** What holds while startup recognises none of the records: they are only ever discarded, without a
      retry, but their settlements come and go. */
  ghost predicate Spurned(s: State)
  {
    && (forall r :: r in s.published ==> Addressed(r, s.subject) && !Recognised(r, s.subject))
    && (forall x :: x in s.stores ==> x.settlement == Refused)
    && (forall x :: x in s.log ==> x in s.stores)
    && (forall id :: id in s.dedupe ==> id == Refused && s.stores != [])
    && (forall d :: d in s.deliveries ==> s.deliveries[d].record in s.published && SpurnedPhase(s.stores, s.deliveries[d].phase))
    && (forall p :: p in s.publishes ==> p.desired == Refused)
    && (forall p :: p in s.releases ==> p.1 && s.stores != [])
    && (forall r :: r in s.published && r !in s.mailbox ==> s.stores != [] && r in s.releasedBy && s.releasedBy[r])
  }

  ghost predicate SpurnedPhase(stores: seq<Stored>, p: Phase)
  {
    match p
    case Handling(retry, sequence) => retry == 0
    case Committing(expected, desired) => desired == Refused
    case Rereading(desired) => desired == Refused
    case Finishing(discard) => discard && stores != []
    case _ => true
  }

  ghost predicate NoneRecognised(s: State)
  {
    forall r :: r in s.published ==> !Recognised(r, s.subject)
  }

  /** What delivery can offer to a handler startup recognises. */
  lemma DecodedIsRecognised(r: Record, c: Subject)
    requires Addressed(r, c) && Decodes(r, c)
    ensures Recognised(r, c)
  {
  }

  ghost predicate SpurnedDelivery(s: State, d: Delivery)
  {
    d.record in s.published && SpurnedPhase(s.stores, d.phase)
  }

  /** What a spurned state may change without touching what is stored. */
  lemma SpurnedSide(s: State, t: State)
    requires Spurned(s) && t.subject == s.subject && t.stores == s.stores && t.published == s.published
    requires forall d :: d in t.deliveries ==> SpurnedDelivery(s, t.deliveries[d])
    requires forall x :: x in t.log ==> x in s.log
    requires forall id :: id in t.dedupe ==> id in s.dedupe
    requires forall p :: p in t.publishes ==> p.desired == Refused
    requires forall p :: p in t.releases ==> p.1 && s.stores != []
    requires forall r :: r in s.mailbox ==> r in t.mailbox || (s.stores != [] && r in t.releasedBy && t.releasedBy[r])
    requires forall r :: r in s.published && r !in s.mailbox ==> r in t.releasedBy && t.releasedBy[r] == s.releasedBy[r]
    ensures Spurned(t)
  {
    hide Recognised, Addressed;
  }

  lemma SpurnedTo(s: State, d: nat, phase: Phase)
    requires Spurned(s) && In(s, d) && SpurnedPhase(s.stores, phase)
    ensures Spurned(To(s, d, phase))
  {
    forall x | x in To(s, d, phase).deliveries ensures SpurnedDelivery(s, To(s, d, phase).deliveries[x]) {
      assert SpurnedDelivery(s, s.deliveries[x]);
    }
    SpurnedSide(s, To(s, d, phase));
  }

  lemma SpurnedAppend(s: State, record: Record, q: nat)
    requires Spurned(s)
    ensures Spurned(Append(s, Refused, record, q))
  {
    hide Recognised, Addressed;
    var t := Append(s, Refused, record, q);
    assert t.stores != [];
    forall d | d in t.deliveries ensures SpurnedPhase(t.stores, t.deliveries[d].phase) {
      assert SpurnedPhase(s.stores, s.deliveries[d].phase);
    }
  }

  lemma SpurnedPublish(s: State, r: Record)
    requires Spurned(s) && Addressed(r, s.subject) && !Recognised(r, s.subject)
    ensures Spurned(s.(published := s.published + {r}, mailbox := s.mailbox + {r}))
  {
    hide Recognised, Addressed;
  }

  lemma SpurnedPhaseOf(s: State, d: nat)
    requires Spurned(s) && d in s.deliveries
    ensures SpurnedDelivery(s, s.deliveries[d])
  {
  }

  lemma SpurnedHandling(s: State, e: Event)
    requires Spurned(s) && Enabled(s, e) && (e.Load? || e.FindMalformed? || e.Abandon? || e.Deduplicate? || e.Reread?)
    ensures Spurned(Apply(s, e))
  {
    hide Recognised, Addressed, Decodes, ValidUuid;
    var d := e.delivery;
    SpurnedPhaseOf(s, d);
    SpurnedKnown(s);
    hide Spurned;
    var p := s.deliveries[d].phase;
    match e
    case Load(_) => SpurnedTo(s, d, AfterLoad(s.subject.id, s.log));
    case FindMalformed(_) => SpurnedTo(s, d, Committing(p.sequence, Refused));
    case Deduplicate(_) => SpurnedTo(s, d, AfterCommit(p.desired, s.dedupe[p.desired]));
    case Reread(_) =>
      if s.log != [] && ValidUuid(s.subject.id) && s.log[|s.log| - 1].settlement == p.desired {
        SpurnedTo(s, d, AfterCommit(p.desired, LastSequence(s.log)));
      } else {
        SpurnedTo(s, d, Ended);
      }
    case _ => SpurnedTo(s, d, Ended);
  }

  lemma SpurnedKnown(s: State)
    requires Spurned(s)
    ensures s.log != [] ==> s.log[|s.log| - 1].settlement == Refused && s.stores != []
    ensures forall id :: id in s.dedupe ==> id == Refused && s.stores != []
    ensures forall p :: p in s.publishes ==> p.desired == Refused
    ensures forall p :: p in s.releases ==> p.1 && s.stores != []
  {
    if s.log != [] { assert s.log[|s.log| - 1] in s.stores; }
  }

  lemma SpurnedStoring(s: State, e: Event)
    requires Spurned(s) && Enabled(s, e) && (e.StoreSettlement? || e.ApplyPublish? || e.GiveUpPublish?)
    ensures Spurned(Apply(s, e))
  {
    hide Recognised, Addressed, Decodes, ValidUuid;
    SpurnedKnown(s);
    match e
    case StoreSettlement(d, q) =>
      SpurnedPhaseOf(s, d);
      SpurnedAppend(s, s.deliveries[d].record, q);
      SpurnedTo(Append(s, Refused, s.deliveries[d].record, q), d, Finishing(true));
    case ApplyPublish(p, q) =>
      SpurnedAppend(s, p.record, q);
      var t := Append(s, Refused, p.record, q);
      SpurnedAll(t);
      SpurnedSide(t, t.(publishes := s.publishes - {p}));
    case GiveUpPublish(d, inFlight) =>
      SpurnedPhaseOf(s, d);
      SpurnedAll(s);
      var x := s.deliveries[d];
      var t := if inFlight then s.(publishes := s.publishes + {Publish(x.phase.expected, x.phase.desired, x.record)}) else s;
      SpurnedSide(s, t);
      SpurnedTo(t, d, Rereading(x.phase.desired));
  }

  lemma SpurnedAll(s: State)
    requires Spurned(s)
    ensures forall d :: d in s.deliveries ==> SpurnedDelivery(s, s.deliveries[d])
    ensures forall p :: p in s.publishes ==> p.desired == Refused
    ensures forall p :: p in s.releases ==> p.1 && s.stores != []
    ensures forall r :: r in s.published && r !in s.mailbox ==> r in s.releasedBy
  {
  }

  lemma SpurnedRemove(s: State, record: Record)
    requires Spurned(s) && s.stores != []
    ensures Spurned(Remove(s, record, true))
  {
    hide Recognised, Addressed, Decodes, ValidUuid;
    SpurnedAll(s);
    SpurnedSide(s, Remove(s, record, true));
  }

  lemma SpurnedReleasing(s: State, e: Event)
    requires Spurned(s) && Enabled(s, e) && (e.Release? || e.GiveUpRelease? || e.ApplyRelease?)
    ensures Spurned(Apply(s, e))
  {
    hide Recognised, Addressed, Decodes, ValidUuid;
    SpurnedAll(s);
    hide Spurned;
    match e
    case Release(d) =>
      SpurnedPhaseOf(s, d);
      SpurnedRemove(s, s.deliveries[d].record);
      SpurnedTo(Remove(s, s.deliveries[d].record, true), d, Purging);
    case GiveUpRelease(d) =>
      SpurnedPhaseOf(s, d);
      var t := s.(releases := s.releases + {(s.deliveries[d].record, true)});
      SpurnedSide(s, t);
      SpurnedTo(t, d, Ended);
    case ApplyRelease(p) =>
      SpurnedRemove(s, p.0);
      var t := Remove(s, p.0, true);
      SpurnedAll(t);
      SpurnedSide(t, t.(releases := s.releases - {p}));
  }

  lemma SpurnedPurging(s: State, e: Event)
    requires Spurned(s) && Enabled(s, e) && (e.Purge? || e.GiveUpPurge? || e.ApplyPurge?)
    ensures Spurned(Apply(s, e))
  {
    hide Recognised, Addressed, Decodes, ValidUuid;
    SpurnedAll(s);
    hide Spurned;
    match e
    case Purge(d) =>
      SpurnedSide(s, s.(log := []));
      SpurnedTo(s.(log := []), d, Ended);
    case GiveUpPurge(d) =>
      SpurnedSide(s, s.(purges := s.purges + 1));
      SpurnedTo(s.(purges := s.purges + 1), d, Ended);
    case ApplyPurge => SpurnedSide(s, Apply(s, e));
  }

  lemma SpurnedRestarting(s: State, e: Event)
    requires Spurned(s) && Enabled(s, e)
    requires e.Begin? || e.ForgetId? || e.Crash? || e.FindOrphan? || e.DeleteOrphan? || e.Start?
    ensures Spurned(Apply(s, e))
  {
    hide Recognised, Addressed, Decodes, ValidUuid;
    SpurnedAll(s);
    hide Spurned;
    if e.DeleteOrphan? { WithoutSubset(s.log, e.sequence); }
    SpurnedSide(s, Apply(s, e));
  }

  lemma SpurnedIsNotOffered(s: State, d: nat)
    requires Spurned(s) && d in s.deliveries
    ensures !Decodes(s.deliveries[d].record, s.subject)
  {
    hide Recognised, Addressed, Decodes, ValidUuid;
    if Decodes(s.deliveries[d].record, s.subject) { DecodedIsRecognised(s.deliveries[d].record, s.subject); }
  }

  lemma SpurnedStepKeeps(s: State, e: Event)
    requires Spurned(s) && Enabled(s, e) && NoneRecognised(Apply(s, e))
    ensures Spurned(Apply(s, e)) && !e.CallHandler?
  {
    hide Recognised, Addressed, Decodes, ValidUuid, Spurned;
    if e.CallHandler? {
      SpurnedIsNotOffered(s, e.delivery);
    } else if e.PublishRecord? {
      SpurnedPublish(s, e.record);
    } else if e.Load? || e.FindMalformed? || e.Abandon? || e.Deduplicate? || e.Reread? {
      SpurnedHandling(s, e);
    } else if e.StoreSettlement? || e.ApplyPublish? || e.GiveUpPublish? {
      SpurnedStoring(s, e);
    } else if e.Begin? || e.ForgetId? || e.Crash? || e.FindOrphan? || e.DeleteOrphan? || e.Start? {
      SpurnedRestarting(s, e);
    } else if e.Purge? || e.GiveUpPurge? || e.ApplyPurge? {
      SpurnedPurging(s, e);
    } else {
      SpurnedReleasing(s, e);
    }
  }

  // ---------------------------------------------------------------- results over whole runs

  ghost predicate ExclusiveRun(c: Subject, events: seq<Event>, states: seq<State>)
  {
    Run(c, events, states) && Exclusive(states[|events|])
  }

  /** One record to the subject, and one that startup recognises. */
  ghost predicate OrderlyRun(c: Subject, events: seq<Event>, states: seq<State>)
  {
    ExclusiveRun(c, events, states) && AllRecognised(states[|events|])
  }

  lemma InitSubject(c: Subject)
    ensures Init(c).subject == c && Init(c).published == {}
  {
  }

  lemma StepGrows(s: State, e: Event)
    requires Enabled(s, e)
    ensures s.published <= Apply(s, e).published && s.stores <= Apply(s, e).stores && Apply(s, e).subject == s.subject
    ensures forall r :: r in Apply(s, e).published ==> r in s.published || Addressed(r, s.subject)
  {
  }

  lemma StepStaysResumed(s: State, e: Event, d: nat)
    requires Enabled(s, e) && d in s.deliveries && Resumed(s.deliveries[d].phase)
    ensures d in Apply(s, e).deliveries && Resumed(Apply(s, e).deliveries[d].phase)
    ensures s.deliveries[d].phase.Ended? ==> Apply(s, e).deliveries[d].phase.Ended?
  {
  }

  lemma {:induction false} PublishedGrows(c: Subject, events: seq<Event>, states: seq<State>, i: nat, j: nat)
    requires Run(c, events, states) && i <= j <= |events|
    ensures states[i].published <= states[j].published && states[i].stores <= states[j].stores
    ensures states[j].subject == c && forall r :: r in states[j].published ==> Addressed(r, c)
    decreases j
  {
    hide Enabled, Apply, Init, Addressed;
    InitSubject(c);
    if j > 0 {
      StepGrows(states[j - 1], events[j - 1]);
      if i < j { PublishedGrows(c, events, states, i, j - 1); } else { PublishedGrows(c, events, states, i - 1, j - 1); }
      assert Enabled(states[j - 1], events[j - 1]) && states[j] == Apply(states[j - 1], events[j - 1]);
    }
  }

  lemma {:induction false} RunKeeps(c: Subject, events: seq<Event>, states: seq<State>, i: nat)
    requires OrderlyRun(c, events, states) && i <= |events|
    ensures Inv(states[i])
  {
    hide Inv, Enabled, Apply, Init, Recognised;
    if i == 0 {
      InitHolds(c);
    } else {
      RunKeeps(c, events, states, i - 1);
      PublishedGrows(c, events, states, i, |events|);
      PublishedGrows(c, events, states, i - 1, i);
      StepKeeps(states[i - 1], events[i - 1]);
    }
  }

  lemma {:induction false} SpurnedRunKeeps(c: Subject, events: seq<Event>, states: seq<State>, i: nat)
    requires Run(c, events, states) && NoneRecognised(states[|events|]) && i <= |events|
    ensures Spurned(states[i])
  {
    hide Spurned, Enabled, Apply, Recognised;
    if i == 0 {
      SpurnedAtFirst(c);
    } else {
      SpurnedRunKeeps(c, events, states, i - 1);
      PublishedGrows(c, events, states, i, |events|);
      PublishedGrows(c, events, states, |events|, |events|);
      PublishedGrows(c, events, states, i, i);
      SpurnedStepKeeps(states[i - 1], events[i - 1]);
    }
  }

  lemma SpurnedAtFirst(c: Subject)
    ensures Spurned(Init(c))
  {
  }

  /** With one record to the subject, startup recognises it or recognises none. */
  lemma OneOrOther(s: State)
    requires Exclusive(s)
    ensures AllRecognised(s) || NoneRecognised(s)
  {
    hide Recognised;
  }

  /** A terminal settlement of a record that is still in the mailbox is, at every later moment at
      which it still is, the last one stored and the latest one on the subject. */
  lemma TerminalStaysLatest(c: Subject, events: seq<Event>, states: seq<State>, i: nat, j: nat, k: nat, r: Record)
    requires OrderlyRun(c, events, states) && i <= j <= |events|
    requires k < |states[i].stores| && states[i].stores[k].settlement.Terminal()
    requires r in states[j].mailbox
    ensures states[j].log != [] && states[j].log[|states[j].log| - 1] == states[i].stores[k]
    ensures states[j].stores == states[i].stores && k == |states[i].stores| - 1
  {
    PublishedGrows(c, events, states, i, j);
    RunKeeps(c, events, states, j);
    assert states[j].stores[k] == states[i].stores[k];
  }

  /** Where a delivery that resumed a recorded disposition can be. */
  predicate Resumed(p: Phase)
  {
    p.Finishing? || p.Purging? || p.Ended?
  }

  lemma {:induction false} ResumedStays(c: Subject, events: seq<Event>, states: seq<State>, d: nat, i: nat, j: nat)
    requires Run(c, events, states) && i <= j <= |events|
    requires d in states[i].deliveries && Resumed(states[i].deliveries[d].phase)
    ensures d in states[j].deliveries && Resumed(states[j].deliveries[d].phase)
    ensures states[i].deliveries[d].phase.Ended? ==> states[j].deliveries[d].phase.Ended?
    decreases j - i
  {
    hide Enabled, Apply, Resumed;
    if i < j {
      ResumedStays(c, events, states, d, i, j - 1);
      StepStaysResumed(states[j - 1], events[j - 1], d);
      assert Enabled(states[j - 1], events[j - 1]) && states[j] == Apply(states[j - 1], events[j - 1]);
    }
  }

  /** A record that startup does not recognise is never offered to a handler. */
  lemma SpurnedIsNeverHandled(c: Subject, events: seq<Event>, states: seq<State>, j: nat)
    requires Run(c, events, states) && NoneRecognised(states[|events|]) && j < |events|
    ensures !events[j].CallHandler?
  {
    SpurnedRunKeeps(c, events, states, j);
    PublishedGrows(c, events, states, j + 1, |events|);
    PublishedGrows(c, events, states, |events|, |events|);
    PublishedGrows(c, events, states, j + 1, j + 1);
    assert Enabled(states[j], events[j]) && states[j + 1] == Apply(states[j], events[j]);
    hide Spurned, Enabled, Apply, Recognised;
    SpurnedStepKeeps(states[j], events[j]);
  }

  /** A delivery that reads the settlement while a terminal one is stored and the record is still in
      the mailbox never calls the handler. */
  lemma NoHandlerAfterTerminal(c: Subject, events: seq<Event>, states: seq<State>, i: nat, j: nat, d: nat, r: Record, k: nat)
    requires ExclusiveRun(c, events, states) && i < j < |events|
    requires k < |states[i].stores| && states[i].stores[k].settlement.Terminal() && r in states[i].mailbox
    requires events[i] == Load(d)
    ensures !(events[j].CallHandler? && events[j].delivery == d)
  {
    OneOrOther(states[|events|]);
    if NoneRecognised(states[|events|]) {
      SpurnedIsNeverHandled(c, events, states, j);
    } else {
      TerminalStaysLatest(c, events, states, i, i, k, r);
      assert Enabled(states[i], events[i]) && states[i + 1] == Apply(states[i], events[i]);
      ResumedStays(c, events, states, d, i + 1, j);
      assert Enabled(states[j], events[j]);
    }
  }

  /** A record leaves the mailbox only after a terminal settlement for it was stored, by the verb of
      the first one stored. */
  lemma LeavesBySettledVerb(c: Subject, events: seq<Event>, states: seq<State>, i: nat, r: Record) returns (k: nat)
    requires ExclusiveRun(c, events, states) && i <= |events|
    requires r in states[i].published && r !in states[i].mailbox
    ensures FirstTerminal(states[i].stores, k)
    ensures r in states[i].releasedBy && states[i].releasedBy[r] == states[i].stores[k].settlement.state.Discard?
  {
    OneOrOther(states[|events|]);
    if NoneRecognised(states[|events|]) {
      SpurnedRunKeeps(c, events, states, i);
      k := 0;
      assert states[i].stores[0] in states[i].stores;
    } else {
      RunKeeps(c, events, states, i);
      assert r in states[i].published - states[i].mailbox;
      k :| Released(states[i], k);
    }
  }

  /** The retries stored for a live record count 1, 2, 3, ... and stay within the limit. */
  lemma RetriesCountUp(c: Subject, events: seq<Event>, states: seq<State>, i: nat, r: Record, k: nat)
    requires OrderlyRun(c, events, states) && i <= |events|
    requires r in states[i].mailbox && k < |states[i].stores|
    ensures states[i].stores[k].settlement.state.Retry? ==>
      states[i].stores[k].settlement.retries == k + 1 <= c.limit
    ensures k < |states[i].stores| - 1 ==> states[i].stores[k].settlement.state.Retry?
    ensures states[i].stores[k].settlement.Terminal() ==> states[i].stores[k].settlement.retries == k
  {
    RunKeeps(c, events, states, i);
    PublishedGrows(c, events, states, i, i);
  }

  /** Under an id that is not a UUID a stored settlement is refused when it is read back, so a delivery
      that reads the subject then ends there and never releases the record. */
  lemma NoReleaseWithoutUuid(c: Subject, events: seq<Event>, states: seq<State>, i: nat, j: nat, d: nat)
    requires Run(c, events, states) && !ValidUuid(c.id) && i < j <= |events|
    requires events[i] == Load(d) && states[i].log != []
    ensures d in states[j].deliveries && states[j].deliveries[d].phase == Ended
  {
    PublishedGrows(c, events, states, i, i);
    assert Enabled(states[i], events[i]) && states[i + 1] == Apply(states[i], events[i]);
    ResumedStays(c, events, states, d, i + 1, j);
  }

  // ---------------------------------------------------------------- what the handler returned decides

  /** What a first look at a record, or its handler, came to after `retry` recorded retries: success is
      acknowledged; a retryable failure is retried while retries are left and discarded after that; any
      other failure, and a record that does not decode, is discarded. */
  predicate CallsFor(e: Event, retry: nat, limit: nat, x: Settlement)
  {
    match e
    case CallHandler(_, Succeeded) => x == Settlement(Acknowledge, retry)
    case CallHandler(_, FailedForGood) => x == Settlement(Discard, retry)
    case CallHandler(_, FailedRetryable) =>
      (retry < limit ==> x == Settlement(Retry, retry + 1)) && (retry >= limit ==> x == Settlement(Discard, retry))
    case FindMalformed(_) => x == Settlement(Discard, retry)
    case _ => false
  }

  /** The delivery goes on to publish exactly that, on top of the revision it read, and stores it when the
      subject is still at that revision. */
  lemma HandlerDecides(s: State, e: Event)
    requires Enabled(s, e) && (e.CallHandler? || e.FindMalformed?)
    ensures var before, after := s.deliveries[e.delivery], Apply(s, e).deliveries[e.delivery];
      && before.phase.Handling? && after.record == before.record && after.phase.Committing?
      && after.phase.expected == before.phase.sequence && CallsFor(e, before.phase.retry, s.subject.limit, after.phase.desired)
    ensures Apply(s, e).stores == s.stores && Apply(s, e).log == s.log && Apply(s, e).mailbox == s.mailbox
  {
  }

  lemma StoresWhatItCommits(s: State, d: nat, q: nat)
    requires Enabled(s, StoreSettlement(d, q))
    ensures var x := s.deliveries[d];
      && x.phase.Committing? && Apply(s, StoreSettlement(d, q)).stores == s.stores + [Stored(q, x.phase.desired, x.record)]
      && x.phase.expected == LastSequence(s.log) && Apply(s, StoreSettlement(d, q)).log == s.log + [Stored(q, x.phase.desired, x.record)]
  {
  }

  /** Event `j` is why settlement `x` is to be stored for the record. */
  ghost predicate ExplainedAt(events: seq<Event>, states: seq<State>, j: nat, r: Record, x: Settlement)
  {
    && j < |events| && j < |states| && (events[j].CallHandler? || events[j].FindMalformed?)
    && var d := events[j].delivery;
       && d in states[j].deliveries && states[j].deliveries[d].record == r && states[j].deliveries[d].phase.Handling?
       && CallsFor(events[j], states[j].deliveries[d].phase.retry, states[j].subject.limit, x)
  }

  ghost predicate Explained(events: seq<Event>, states: seq<State>, i: nat, r: Record, x: Settlement)
  {
    exists j: nat :: j < i && ExplainedAt(events, states, j, r, x)
  }

  ghost predicate AllExplained(events: seq<Event>, states: seq<State>, i: nat, s: State)
  {
    && (forall k :: 0 <= k < |s.stores| ==> Explained(events, states, i, s.stores[k].record, s.stores[k].settlement))
    && (forall d :: d in s.deliveries && s.deliveries[d].phase.Committing? ==>
          Explained(events, states, i, s.deliveries[d].record, s.deliveries[d].phase.desired))
    && (forall p :: p in s.publishes ==> Explained(events, states, i, p.record, p.desired))
  }

  lemma LaterExplained(events: seq<Event>, states: seq<State>, i: nat, s: State)
    requires AllExplained(events, states, i, s)
    ensures AllExplained(events, states, i + 1, s)
  {
    hide ExplainedAt;
    forall r, x | Explained(events, states, i, r, x) ensures Explained(events, states, i + 1, r, x) {
      var j: nat :| j < i && ExplainedAt(events, states, j, r, x);
    }
  }

  lemma StepExplains(events: seq<Event>, states: seq<State>, i: nat, s: State, e: Event)
    requires AllExplained(events, states, i, s) && Enabled(s, e)
    requires e.CallHandler? || e.FindMalformed? ==>
      Explained(events, states, i, s.deliveries[e.delivery].record, Apply(s, e).deliveries[e.delivery].phase.desired)
    ensures AllExplained(events, states, i, Apply(s, e))
  {
    hide Explained, ValidUuid, Addressed, Decodes, Recognised, Without, AfterLoad, AfterCommit, LastSequence;
    AfterLoadNeverCommits(s);
    if e.StoreSettlement? || e.ApplyPublish? { StoreExplains(events, states, i, s, e); }
    else { OtherExplains(events, states, i, s, e); }
  }

  lemma AfterLoadNeverCommits(s: State)
    ensures !AfterLoad(s.subject.id, s.log).Committing?
    ensures forall x, q :: !AfterCommit(x, q).Committing?
  {
  }

  lemma StoreExplains(events: seq<Event>, states: seq<State>, i: nat, s: State, e: Event)
    requires AllExplained(events, states, i, s) && Enabled(s, e) && (e.StoreSettlement? || e.ApplyPublish?)
    ensures AllExplained(events, states, i, Apply(s, e))
  {
    hide Explained, ValidUuid, Addressed, Decodes, Recognised, Without, AfterLoad, LastSequence;
  }

  lemma OtherExplains(events: seq<Event>, states: seq<State>, i: nat, s: State, e: Event)
    requires AllExplained(events, states, i, s) && Enabled(s, e) && !e.StoreSettlement? && !e.ApplyPublish?
    requires e.CallHandler? || e.FindMalformed? ==>
      Explained(events, states, i, s.deliveries[e.delivery].record, Apply(s, e).deliveries[e.delivery].phase.desired)
    ensures AllExplained(events, states, i, Apply(s, e))
  {
    hide Explained, ValidUuid, Addressed, Decodes, Recognised, Without, LastSequence;
  }

  lemma {:induction false} RunExplains(c: Subject, events: seq<Event>, states: seq<State>, i: nat)
    requires Run(c, events, states) && i <= |events|
    ensures AllExplained(events, states, i, states[i])
  {
    if i > 0 {
      var s, e := states[i - 1], events[i - 1];
      RunExplains(c, events, states, i - 1);
      assert Enabled(s, e) && states[i] == Apply(s, e);
      hide Apply, Enabled, AllExplained, CallsFor;
      LaterExplained(events, states, i - 1, s);
      if e.CallHandler? || e.FindMalformed? {
        HandlerDecides(s, e);
        InDeliveries(s, e);
        assert ExplainedAt(events, states, i - 1, s.deliveries[e.delivery].record, Apply(s, e).deliveries[e.delivery].phase.desired);
      }
      StepExplains(events, states, i, s, e);
    }
  }

  lemma InDeliveries(s: State, e: Event)
    requires Enabled(s, e) && (e.CallHandler? || e.FindMalformed?)
    ensures e.delivery in s.deliveries && s.deliveries[e.delivery].phase.Handling? && e.delivery in Apply(s, e).deliveries
  {
  }

  /** In every run, whatever shares the subject: an acknowledgement is stored for a record only after a
      handler call for it succeeded; the `n`-th retry only after one failed retryably with `n` - 1 retries
      recorded and `n` within the limit; and a discard only after one failed for good, or failed retryably
      with no retry left, or the record was found not to decode. */
  lemma StoredForCause(c: Subject, events: seq<Event>, states: seq<State>, i: nat, k: nat) returns (j: nat)
    requires Run(c, events, states) && i <= |events| && k < |states[i].stores|
    ensures j < i && (events[j].CallHandler? || events[j].FindMalformed?)
    ensures var x, e, d := states[i].stores[k], events[j], states[j].deliveries;
      && e.delivery in d && d[e.delivery].record == x.record && d[e.delivery].phase.Handling?
      && var retry := d[e.delivery].phase.retry;
         match x.settlement.state
         case Acknowledge => e == CallHandler(e.delivery, Succeeded) && x.settlement.retries == retry
         case Retry => e == CallHandler(e.delivery, FailedRetryable) && x.settlement.retries == retry + 1 <= c.limit
         case Discard => && x.settlement.retries == retry
                         && (e.FindMalformed? || e.result.FailedForGood? || (e.result.FailedRetryable? && retry >= c.limit))
  {
    RunExplains(c, events, states, i);
    hide Run;
    j :| j < i && ExplainedAt(events, states, j, states[i].stores[k].record, states[i].stores[k].settlement);
    SubjectStays(c, events, states, j);
  }

  lemma SubjectStays(c: Subject, events: seq<Event>, states: seq<State>, i: nat)
    requires Run(c, events, states) && i <= |events|
    ensures states[i].subject == c
  {
    PublishedGrows(c, events, states, i, i);
  }

  // ---------------------------------------------------------------- exactly when the protocol keeps its promises

  /** Records that can all be published under the subject. */
  ghost predicate Publishable(c: Subject, records: set<Record>)
  {
    (forall r :: r in records ==> Addressed(r, c)) && forall q, r :: q in records && r in records && q.sequence == r.sequence ==> q == r
  }

  /** A run that publishes no other records than these. */
  ghost predicate Within(c: Subject, records: set<Record>, events: seq<Event>, states: seq<State>)
  {
    Run(c, events, states) && states[|events|].published <= records
  }

  /** The record's stored settlement `k` is terminal. */
  predicate Settled(s: State, k: int, r: Record)
  {
    0 <= k < |s.stores| && s.stores[k].settlement.Terminal() && s.stores[k].record == r
  }

  /** A terminal settlement stays the latest while its record is in the mailbox. */
  ghost predicate StaysLatest(states: seq<State>)
  {
    forall i, j, k, r :: 0 <= i <= j < |states| && Settled(states[i], k, r) && r in states[j].mailbox ==>
      states[j].log != [] && states[j].log[|states[j].log| - 1] == states[i].stores[k]
  }

  /** The settlements of a record in the mailbox are retries 1, 2, 3, ... and then one terminal one. */
  ghost predicate CountsUp(c: Subject, states: seq<State>)
  {
    forall i, k, r :: 0 <= i < |states| && r in states[i].mailbox && 0 <= k < |states[i].stores| && states[i].stores[k].record == r ==>
      if k < |states[i].stores| - 1 || states[i].stores[k].settlement.state.Retry?
      then states[i].stores[k].settlement == Settlement(Retry, k + 1) && k + 1 <= c.limit
      else states[i].stores[k].settlement.retries == k
  }

  /** No delivery calls the handler that read the subject when its record was settled: while the record
      was in the mailbox, or with `late` also after it had left. */
  ghost predicate Spares(events: seq<Event>, states: seq<State>, late: bool)
  {
    forall i, j, k, d: nat ::
      0 <= i < j < |events| < |states| && events[i] == Load(d) && d in states[i].deliveries
      && Settled(states[i], k, states[i].deliveries[d].record) && (late || states[i].deliveries[d].record in states[i].mailbox)
      ==> !(events[j].CallHandler? && events[j].delivery == d)
  }

  /** A settlement survives, and the retries count up, in every run over some records exactly when there
      is at most one and startup recognises it. */
  lemma KeepsSettlementsExactly(c: Subject, records: set<Record>)
    requires Publishable(c, records)
    ensures (forall events, states :: Within(c, records, events, states) ==> StaysLatest(states)) <==>
      |records| <= 1 && forall r :: r in records ==> Recognised(r, c)
    ensures (forall events, states :: Within(c, records, events, states) ==> CountsUp(c, states)) <==>
      |records| <= 1 && forall r :: r in records ==> Recognised(r, c)
  {
    hide Run, Recognised, Addressed, StaysLatest, CountsUp;
    if |records| <= 1 && forall r :: r in records ==> Recognised(r, c) {
      forall events, states | Within(c, records, events, states) ensures StaysLatest(states) && CountsUp(c, states) {
        OrderlyWithin(c, records, events, states);
        OrderlyKeeps(c, events, states);
      }
    } else {
      var events, states;
      if r :| r in records && !Recognised(r, c) {
        events, states := UnrecognisedSettledTwice(c, r);
        RunLength(c, events, states);
        StoredTwice(c, events, states, r);
      } else {
        var q, r := TwoOf(records);
        events, states := SharedSettledTwice(c, q, r);
        RunLength(c, events, states);
        StoredTwice(c, events, states, q);
      }
      assert Within(c, records, events, states);
    }
  }

  lemma RunLength(c: Subject, events: seq<Event>, states: seq<State>)
    requires Run(c, events, states)
    ensures |states| == |events| + 1
  {
  }

  /** The `k`-th settlement stored is the first terminal one stored for the record. */
  ghost predicate FirstFor(stores: seq<Stored>, k: int, r: Record)
  {
    && 0 <= k < |stores| && stores[k].settlement.Terminal() && stores[k].record == r
    && forall i :: 0 <= i < k && stores[i].record == r ==> !stores[i].settlement.Terminal()
  }

  /** A record that has left did so after a terminal settlement of its own, by the verb of the first one. */
  ghost predicate LeavesByOwn(states: seq<State>)
  {
    forall i, r :: 0 <= i < |states| && r in states[i].published && r !in states[i].mailbox ==>
      exists k :: FirstFor(states[i].stores, k, r) && r in states[i].releasedBy
                  && states[i].releasedBy[r] == states[i].stores[k].settlement.state.Discard?
  }

  /** Records leave by their own settlements in every run over some records exactly when there is at most
      one, recognised or not. */
  lemma LeavesByOwnExactly(c: Subject, records: set<Record>)
    requires Publishable(c, records)
    ensures (forall events, states :: Within(c, records, events, states) ==> LeavesByOwn(states)) <==> |records| <= 1
  {
    hide Run, Addressed, LeavesByOwn;
    if |records| <= 1 {
      AtMostOne(records);
      forall events, states | Within(c, records, events, states) ensures LeavesByOwn(states) {
        LeavesAlone(c, events, states);
      }
    } else {
      var q, r := TwoOf(records);
      var events, states := SharedSettledTwice(c, q, r);
      RunLength(c, events, states);
      LeavesByOther(states, q, r);
      assert Within(c, records, events, states);
    }
  }

  lemma LeavesAlone(c: Subject, events: seq<Event>, states: seq<State>)
    requires ExclusiveRun(c, events, states)
    ensures LeavesByOwn(states)
  {
    RunLength(c, events, states);
    hide Run, Exclusive;
    forall i, r | 0 <= i < |states| && r in states[i].published && r !in states[i].mailbox
      ensures exists k :: FirstFor(states[i].stores, k, r) && r in states[i].releasedBy
                          && states[i].releasedBy[r] == states[i].stores[k].settlement.state.Discard?
    {
      var k := LeavesBySettledVerb(c, events, states, i, r);
      StoredForIt(c, events, states, i, r);
      assert FirstFor(states[i].stores, k, r);
    }
  }

  lemma StoredForIt(c: Subject, events: seq<Event>, states: seq<State>, i: nat, r: Record)
    requires ExclusiveRun(c, events, states) && i <= |events| && r in states[i].published
    ensures forall k :: 0 <= k < |states[i].stores| ==> states[i].stores[k].record == r
  {
    PublishedGrows(c, events, states, i, |events|);
    StoredArePublished(c, events, states, i);
    hide Run;
  }

  /** Whatever is delivered, asked to be stored or stored was published. */
  ghost predicate AllPublished(s: State)
  {
    && (forall d :: d in s.deliveries ==> s.deliveries[d].record in s.published)
    && (forall p :: p in s.publishes ==> p.record in s.published)
    && (forall k :: 0 <= k < |s.stores| ==> s.stores[k].record in s.published)
  }

  lemma {:induction false} StoredArePublished(c: Subject, events: seq<Event>, states: seq<State>, i: nat)
    requires Run(c, events, states) && i <= |events|
    ensures AllPublished(states[i])
  {
    hide Enabled, Apply;
    if i > 0 {
      StoredArePublished(c, events, states, i - 1);
      assert Enabled(states[i - 1], events[i - 1]) && states[i] == Apply(states[i - 1], events[i - 1]);
      StepPublishes(states[i - 1], events[i - 1]);
    }
  }

  lemma StepPublishes(s: State, e: Event)
    requires Enabled(s, e) && AllPublished(s)
    ensures AllPublished(Apply(s, e))
  {
    StepDelivers(s, e);
    StepStores(s, e);
    hide Enabled, Apply;
  }

  lemma StepDelivers(s: State, e: Event)
    requires Enabled(s, e) && AllPublished(s)
    ensures forall d :: d in Apply(s, e).deliveries ==> Apply(s, e).deliveries[d].record in Apply(s, e).published
  {
    hide ValidUuid, Addressed, Decodes, Recognised, Without, AfterLoad, AfterCommit, Desired, LastSequence;
  }

  lemma StepStores(s: State, e: Event)
    requires Enabled(s, e) && AllPublished(s)
    ensures forall p :: p in Apply(s, e).publishes ==> p.record in Apply(s, e).published
    ensures forall k :: 0 <= k < |Apply(s, e).stores| ==> Apply(s, e).stores[k].record in Apply(s, e).published
  {
    hide ValidUuid, Addressed, Decodes, Recognised, Without, AfterLoad, AfterCommit, Desired, LastSequence;
  }

  lemma LeavesByOther(states: seq<State>, q: Record, r: Record)
    requires states != [] && q != r
    requires var s := states[|states| - 1];
      r in s.published && r !in s.mailbox && s.stores == [Stored(1, Refused, q), Stored(2, Refused, q)]
    ensures !LeavesByOwn(states)
  {
    assert r in states[|states| - 1].published;
  }

  /** A settled record is spared in every run over some records exactly when none of them can be offered
      to a handler, or when there is only one and only reads before it leaves count. */
  lemma SparesExactly(c: Subject, records: set<Record>, late: bool)
    requires Publishable(c, records)
    ensures (forall events, states :: Within(c, records, events, states) ==> Spares(events, states, late)) <==>
      (forall r :: r in records ==> !Decodes(r, c)) || (|records| <= 1 && !late)
  {
    hide Run, Decodes, Addressed, Spares;
    if (forall r :: r in records ==> !Decodes(r, c)) || (|records| <= 1 && !late) {
      forall events, states | Within(c, records, events, states) ensures Spares(events, states, late) {
        if |records| <= 1 && !late {
          AtMostOne(records);
          SparedAlone(c, events, states);
        } else {
          SparedUndecoded(c, records, events, states, late);
        }
      }
    } else {
      var q :| q in records && Decodes(q, c);
      var events, states, i;
      if late {
        events, states, i := LateReadCallsTwice(c, q);
      } else {
        var a, b := TwoOf(records);
        events, states, i := SharedSubjectCallsTwice(c, q, if a == q then b else a);
      }
      RunLength(c, events, states);
      CalledTwice(events, states, i, q, late);
      assert Within(c, records, events, states);
    }
  }

  lemma TwoOf(records: set<Record>) returns (q: Record, r: Record)
    requires |records| > 1
    ensures q in records && r in records && q != r
  {
    q :| q in records;
    if records <= {q} { SubsetSize(records, {q}); }
    r :| r in records && r != q;
  }

  lemma AtMostOne(records: set<Record>)
    requires |records| <= 1
    ensures forall q, r :: q in records && r in records ==> q == r
  {
    forall q, r | q in records && r in records ensures q == r {
      if q != r {
        assert {q, r} <= records;
        SubsetSize({q, r}, records);
        assert false;
      }
    }
  }

  lemma OrderlyWithin(c: Subject, records: set<Record>, events: seq<Event>, states: seq<State>)
    requires Within(c, records, events, states) && |records| <= 1 && forall r :: r in records ==> Recognised(r, c)
    ensures OrderlyRun(c, events, states)
  {
    PublishedGrows(c, events, states, |events|, |events|);
    AtMostOne(records);
  }

  lemma OrderlyKeeps(c: Subject, events: seq<Event>, states: seq<State>)
    requires OrderlyRun(c, events, states)
    ensures StaysLatest(states) && CountsUp(c, states)
  {
    assert |states| == |events| + 1;
    hide Run, Recognised, Exclusive;
    forall i, j, k, r | 0 <= i <= j < |states| && Settled(states[i], k, r) && r in states[j].mailbox
      ensures states[j].log != [] && states[j].log[|states[j].log| - 1] == states[i].stores[k]
    {
      TerminalStaysLatest(c, events, states, i, j, k, r);
    }
    forall i, k, r | 0 <= i < |states| && r in states[i].mailbox && 0 <= k < |states[i].stores| && states[i].stores[k].record == r
      ensures if k < |states[i].stores| - 1 || states[i].stores[k].settlement.state.Retry?
              then states[i].stores[k].settlement == Settlement(Retry, k + 1) && k + 1 <= c.limit
              else states[i].stores[k].settlement.retries == k
    {
      RetriesCountUp(c, events, states, i, r, k);
    }
  }

  /** Two terminal settlements stored for a record in the mailbox break both promises. */
  lemma StoredTwice(c: Subject, events: seq<Event>, states: seq<State>, r: Record)
    requires |states| == |events| + 1
    requires var s := states[|events|];
      r in s.mailbox && s.stores == [Stored(1, Refused, r), Stored(2, Refused, r)] && s.log == [Stored(2, Refused, r)]
    ensures !StaysLatest(states) && !CountsUp(c, states)
  {
    assert Settled(states[|events|], 0, r) && r in states[|events|].mailbox;
    assert states[|events|].stores[0].record == r;
  }

  lemma SparedAlone(c: Subject, events: seq<Event>, states: seq<State>)
    requires ExclusiveRun(c, events, states)
    ensures Spares(events, states, false)
  {
    forall i, j, k, d: nat | 0 <= i < j < |events| < |states| && events[i] == Load(d) && d in states[i].deliveries
      && Settled(states[i], k, states[i].deliveries[d].record) && states[i].deliveries[d].record in states[i].mailbox
      ensures !(events[j].CallHandler? && events[j].delivery == d)
    {
      NoHandlerAfterTerminal(c, events, states, i, j, d, states[i].deliveries[d].record, k);
    }
  }

  lemma SparedUndecoded(c: Subject, records: set<Record>, events: seq<Event>, states: seq<State>, late: bool)
    requires Within(c, records, events, states) && forall r :: r in records ==> !Decodes(r, c)
    ensures Spares(events, states, late)
  {
    PublishedGrows(c, events, states, |events|, |events|);
    forall j | 0 <= j < |events| ensures !events[j].CallHandler? {
      PublishedGrows(c, events, states, j, |events|);
      PublishedGrows(c, events, states, j, j);
      StoredArePublished(c, events, states, j);
      assert Enabled(states[j], events[j]);
    }
  }

  lemma CalledTwice(events: seq<Event>, states: seq<State>, i: nat, q: Record, late: bool)
    requires |states| == |events| + 1 && i < |events| - 1 && Settled(states[i], 0, q)
    requires 3 in states[i].deliveries && states[i].deliveries[3].record == q && (late || q in states[i].mailbox)
    requires events[i] == Load(3) && events[|events| - 1] == CallHandler(3, Succeeded)
    ensures !Spares(events, states, late)
  {
    assert events[|events| - 1].CallHandler?;
  }

  /** A delivery that reads a terminal settlement of a record in the mailbox goes on to release it, by that
      settlement's verb. */
  ghost predicate Resumes(events: seq<Event>, states: seq<State>)
  {
    forall i, k, d: nat ::
      0 <= i < |events| < |states| && events[i] == Load(d) && d in states[i].deliveries
      && Settled(states[i], k, states[i].deliveries[d].record) && states[i].deliveries[d].record in states[i].mailbox
      ==> d in states[i + 1].deliveries && states[i + 1].deliveries[d].phase == Finishing(states[i].stores[k].settlement.state.Discard?)
  }

  /** With one recognised record, redelivery resumes the release of a settled record in every run exactly
      when the message id is a UUID. */
  lemma ResumesExactly(c: Subject, r: Record)
    requires Addressed(r, c) && Recognised(r, c)
    ensures (forall events, states :: Within(c, {r}, events, states) ==> Resumes(events, states)) <==> ValidUuid(c.id)
  {
    hide Run, Addressed, Recognised, Resumes, ValidUuid;
    if ValidUuid(c.id) {
      forall events, states | Within(c, {r}, events, states) ensures Resumes(events, states) {
        OrderlyWithin(c, {r}, events, states);
        ResumesWithUuid(c, events, states);
      }
    } else {
      var events, states := StuckWithoutUuid(c, r);
      RunLength(c, events, states);
      NotResumed(events, states, r);
      assert Within(c, {r}, events, states);
    }
  }

  lemma ResumesWithUuid(c: Subject, events: seq<Event>, states: seq<State>)
    requires OrderlyRun(c, events, states) && ValidUuid(c.id)
    ensures Resumes(events, states)
  {
    forall i, k, d: nat | 0 <= i < |events| < |states| && events[i] == Load(d) && d in states[i].deliveries
      && Settled(states[i], k, states[i].deliveries[d].record) && states[i].deliveries[d].record in states[i].mailbox
      ensures d in states[i + 1].deliveries && states[i + 1].deliveries[d].phase == Finishing(states[i].stores[k].settlement.state.Discard?)
    {
      ResumesOne(c, events, states, i, k, d);
    }
  }

  lemma ResumesOne(c: Subject, events: seq<Event>, states: seq<State>, i: nat, k: nat, d: nat)
    requires OrderlyRun(c, events, states) && ValidUuid(c.id) && i < |events| && events[i] == Load(d) && d in states[i].deliveries
    requires Settled(states[i], k, states[i].deliveries[d].record) && states[i].deliveries[d].record in states[i].mailbox
    ensures d in states[i + 1].deliveries && states[i + 1].deliveries[d].phase == Finishing(states[i].stores[k].settlement.state.Discard?)
  {
    TerminalStaysLatest(c, events, states, i, i, k, states[i].deliveries[d].record);
    PublishedGrows(c, events, states, i, i);
    assert states[i + 1] == Apply(states[i], events[i]);
    hide ValidUuid;
  }

  lemma NotResumed(events: seq<Event>, states: seq<State>, r: Record)
    requires |states| == |events| + 1 && events != []
    requires var s, t := states[|events| - 1], states[|events|];
      && events[|events| - 1] == Load(2) && 2 in s.deliveries && s.deliveries[2].record == r && r in s.mailbox
      && Settled(s, 0, r) && 2 in t.deliveries && t.deliveries[2].phase == Ended
    ensures !Resumes(events, states)
  {
    assert events[|events| - 1].delivery == 2;
  }

  /** Settled under an id that is not a UUID, with nothing under way that could still release the record. */
  ghost predicate Stuck(s: State, r: Record)
  {
    && r in s.mailbox && s.log != [] && s.releases == {} && s.purges == 0 && s.doomed == {}
    && (forall x :: x in s.log ==> x.record == r) && (forall p :: p in s.publishes ==> p.record == r)
    && forall d :: d in s.deliveries ==> s.deliveries[d].record == r && (s.deliveries[d].phase.Loading? || s.deliveries[d].phase.Ended?)
  }

  lemma StuckStep(s: State, e: Event, r: Record)
    requires Stuck(s, r) && Enabled(s, e) && !ValidUuid(s.subject.id) && Recognised(r, s.subject) && Apply(s, e).published <= {r}
    ensures Stuck(Apply(s, e), r) && !e.CallHandler?
  {
    hide ValidUuid, Addressed, Decodes, Recognised, Desired, AfterCommit, Without;
  }

  /** From there no run ever releases it, or offers it to a handler. */
  lemma {:induction false} StuckForGood(c: Subject, r: Record, events: seq<Event>, states: seq<State>, i: nat, j: nat)
    requires Within(c, {r}, events, states) && Recognised(r, c) && !ValidUuid(c.id)
    requires i <= j <= |events| && Stuck(states[i], r)
    ensures Stuck(states[j], r) && r in states[j].mailbox && (i < j ==> !events[j - 1].CallHandler?)
    decreases j - i
  {
    hide Enabled, Apply, Recognised, ValidUuid;
    if i < j {
      StuckForGood(c, r, events, states, i, j - 1);
      PublishedGrows(c, events, states, j, |events|);
      PublishedGrows(c, events, states, j - 1, j - 1);
      assert Enabled(states[j - 1], events[j - 1]) && states[j] == Apply(states[j - 1], events[j - 1]);
      StuckStep(states[j - 1], events[j - 1], r);
    }
  }

  // ---------------------------------------------------------------- the runs in which it does not

  /** How a delivery comes to discard a record it reads for the first time: the record does not decode,
      or its handler fails for good. */
  function Refusal(c: Subject, d: nat, r: Record): Event
  {
    if Decodes(r, c) then CallHandler(d, FailedForGood) else FindMalformed(d)
  }

  lemma Extend(c: Subject, events: seq<Event>, states: seq<State>, e: Event) returns (events': seq<Event>, states': seq<State>)
    requires Run(c, events, states) && Enabled(states[|events|], e)
    ensures Run(c, events', states') && events' == events + [e]
    ensures states' == states + [Apply(states[|events|], e)]
  {
    events', states' := events + [e], states + [Apply(states[|events|], e)];
    forall i | 0 <= i < |events'| ensures Enabled(states'[i], events'[i]) && states'[i + 1] == Apply(states'[i], events'[i]) {
      if i < |events| { assert Enabled(states[i], events[i]); }
    }
  }

  /** One delivery of a record up to the point where its settlement is stored: it is acknowledged, or
      discarded. */
  lemma SettleOnce(c: Subject, events: seq<Event>, states: seq<State>, d: nat, r: Record, q: nat, discard: bool)
    returns (events': seq<Event>, states': seq<State>)
    requires Run(c, events, states)
    requires var s := states[|events|];
      && s.subject == c && s.running && r in s.published && d !in s.deliveries && s.log == [] && q > s.next && (discard || Decodes(r, c))
    ensures Run(c, events', states') && |events'| == |events| + 4 && states <= states'
    ensures var s, t := states[|events|], states'[|events'|];
      var stored := Stored(q, Settlement(if discard then Discard else Acknowledge, 0), r);
      t == s.(log := [stored], stores := s.stores + [stored], next := q, dedupe := s.dedupe[stored.settlement := q],
              deliveries := s.deliveries[d := Delivery(r, Finishing(discard))])
  {
    hide ValidUuid, Addressed, Decodes, Recognised;
    events', states' := Extend(c, events, states, Begin(d, r));
    events', states' := Extend(c, events', states', Load(d));
    events', states' := Extend(c, events', states', if discard then Refusal(c, d, r) else CallHandler(d, Succeeded));
    events', states' := Extend(c, events', states', StoreSettlement(d, q));
  }

  lemma ReleaseAndPurge(c: Subject, events: seq<Event>, states: seq<State>, d: nat, r: Record, discard: bool)
    returns (events': seq<Event>, states': seq<State>)
    requires Run(c, events, states)
    requires var s := states[|events|]; d in s.deliveries && s.deliveries[d] == Delivery(r, Finishing(discard)) && r in s.mailbox
    ensures Run(c, events', states') && |events'| == |events| + 2 && states <= states'
    ensures var s := states[|events|];
      states'[|events'|] == s.(log := [], mailbox := s.mailbox - {r}, releasedBy := s.releasedBy[r := discard],
                               deliveries := s.deliveries[d := Delivery(r, Ended)])
  {
    events', states' := Extend(c, events, states, Release(d));
    events', states' := Extend(c, events', states', Purge(d));
    var s := states[|events|];
    assert states'[|events'|].deliveries == s.deliveries[d := Delivery(r, Ended)];
  }

  lemma PublishTwo(c: Subject, q: Record, r: Record) returns (events: seq<Event>, states: seq<State>)
    requires Addressed(q, c) && Addressed(r, c) && q.sequence != r.sequence
    ensures Run(c, events, states) && states[|events|] == Init(c).(published := {q, r}, mailbox := {q, r})
  {
    hide Addressed;
    events, states := Extend(c, [], [Init(c)], PublishRecord(q));
    events, states := Extend(c, events, states, PublishRecord(r));
    assert {} + {q} + {r} == {q, r};
  }

  /** Two records under one subject are both read before either is settled.  The second one's publish
      is taken for the first one's, so it releases its own record and purges the first one's settlement,
      which is then stored again. */
  lemma SharedSettledTwice(c: Subject, q: Record, r: Record) returns (events: seq<Event>, states: seq<State>)
    requires Addressed(q, c) && Addressed(r, c) && q.sequence != r.sequence
    ensures Run(c, events, states)
    ensures var s := states[|events|];
      && s.published == {q, r} && q in s.mailbox && r !in s.mailbox
      && s.stores == [Stored(1, Refused, q), Stored(2, Refused, q)] && s.log == [Stored(2, Refused, q)]
  {
    hide ValidUuid, Addressed, Decodes, Recognised;
    events, states := PublishTwo(c, q, r);
    events, states := Extend(c, events, states, Begin(1, r));
    events, states := Extend(c, events, states, Load(1));
    events, states := Extend(c, events, states, Refusal(c, 1, r));
    events, states := SettleOnce(c, events, states, 2, q, 1, true);
    events, states := Extend(c, events, states, Deduplicate(1));
    events, states := ReleaseAndPurge(c, events, states, 1, r, true);
    events, states := Extend(c, events, states, ForgetId(Refused));
    events, states := SettleOnce(c, events, states, 3, q, 2, true);
  }

  /** The process crashes and startup deletes a settlement it takes for orphaned. */
  lemma CrashAndClean(c: Subject, events: seq<Event>, states: seq<State>, x: Stored) returns (events': seq<Event>, states': seq<State>)
    requires Run(c, events, states) && states[|events|].log == [x] && !Recognised(x.record, states[|events|].subject)
    ensures Run(c, events', states')
    ensures var s := states[|events|];
      states'[|events'|] == s.(deliveries := EndAll(s.deliveries), log := [], doomed := {}, running := true)
  {
    hide ValidUuid, Addressed, Decodes, Recognised;
    var s := states[|events|];
    events', states' := Extend(c, events, states, Crash);
    events', states' := Extend(c, events', states', FindOrphan(x));
    events', states' := Extend(c, events', states', DeleteOrphan(x.sequence));
    assert Without([x], x.sequence) == [];
    assert {} + {x.sequence} - {x.sequence} == {};
    events', states' := Extend(c, events', states', Start);
  }

  /** A record startup does not recognise is discarded, the process crashes before +TERM, startup
      deletes the settlement although the record is still there, and it is discarded again. */
  lemma UnrecognisedSettledTwice(c: Subject, r: Record) returns (events: seq<Event>, states: seq<State>)
    requires Addressed(r, c) && !Recognised(r, c)
    ensures Run(c, events, states)
    ensures var s := states[|events|];
      && s.published == {r} && r in s.mailbox
      && s.stores == [Stored(1, Refused, r), Stored(2, Refused, r)] && s.log == [Stored(2, Refused, r)]
  {
    hide ValidUuid, Addressed, Decodes, Recognised;
    events, states := Extend(c, [], [Init(c)], PublishRecord(r));
    events, states := SettleOnce(c, events, states, 1, r, 1, true);
    events, states := CrashAndClean(c, events, states, Stored(1, Refused, r));
    events, states := Extend(c, events, states, ForgetId(Refused));
    events, states := SettleOnce(c, events, states, 2, r, 2, true);
  }

  /** A record under an id that is not a UUID is discarded and the process crashes before +TERM; its next
      delivery reads the settlement and ends there, and nothing is left that could release the record. */
  lemma StuckWithoutUuid(c: Subject, r: Record) returns (events: seq<Event>, states: seq<State>)
    requires Addressed(r, c) && !ValidUuid(c.id)
    ensures Run(c, events, states) && |events| > 0 && states[|events|].published == {r}
    ensures var s, t := states[|events| - 1], states[|events|];
      && events[|events| - 1] == Load(2) && 2 in s.deliveries && s.deliveries[2].record == r && r in s.mailbox
      && Settled(s, 0, r) && 2 in t.deliveries && t.deliveries[2].phase == Ended
    ensures Stuck(states[|events|], r)
  {
    hide ValidUuid, Addressed, Decodes, Recognised;
    events, states := Extend(c, [], [Init(c)], PublishRecord(r));
    events, states := SettleOnce(c, events, states, 1, r, 1, true);
    events, states := CrashAndStart(c, events, states);
    events, states := Extend(c, events, states, Begin(2, r));
    events, states := Extend(c, events, states, Load(2));
  }

  lemma CrashAndStart(c: Subject, events: seq<Event>, states: seq<State>) returns (events': seq<Event>, states': seq<State>)
    requires Run(c, events, states)
    ensures Run(c, events', states')
    ensures var s := states[|events|]; states'[|events'|] == s.(deliveries := EndAll(s.deliveries), doomed := {}, running := true)
  {
    events', states' := Extend(c, events, states, Crash);
    events', states' := Extend(c, events', states', Start);
  }

  /** Two records under one subject: the first is acknowledged, and the delivery of the second reads
      that, releases its own record and purges. */
  lemma SharedSubjectPurges(c: Subject, q: Record, r: Record) returns (events: seq<Event>, states: seq<State>)
    requires Addressed(q, c) && Addressed(r, c) && q.sequence != r.sequence && Decodes(q, c)
    ensures Run(c, events, states)
    ensures var s := states[|events|];
      && s.subject == c && s.published == {q, r} && s.mailbox == {q} && s.log == [] && 3 !in s.deliveries && s.running
      && s.stores == [Stored(1, Settlement(Acknowledge, 0), q)]
  {
    assert ValidUuid(c.id);
    hide ValidUuid, Addressed, Decodes, Recognised;
    events, states := PublishTwo(c, q, r);
    events, states := SettleOnce(c, events, states, 1, q, 1, false);
    events, states := Extend(c, events, states, Abandon(1));
    events, states := Extend(c, events, states, Begin(2, r));
    events, states := Extend(c, events, states, Load(2));
    events, states := ReleaseAndPurge(c, events, states, 2, r, false);
    assert {q, r} - {r} == {q};
  }

  /** The first record is still in the mailbox, and its next delivery calls the handler again. */
  lemma SharedSubjectCallsTwice(c: Subject, q: Record, r: Record) returns (events: seq<Event>, states: seq<State>, i: nat)
    requires Addressed(q, c) && Addressed(r, c) && q.sequence != r.sequence && Decodes(q, c)
    ensures Run(c, events, states) && i < |events| - 1 && states[|events|].published == {q, r}
    ensures q in states[i].mailbox && q in states[|events|].mailbox && Settled(states[i], 0, q)
    ensures 3 in states[i].deliveries && states[i].deliveries[3].record == q
    ensures events[i] == Load(3) && events[|events| - 1] == CallHandler(3, Succeeded)
  {
    hide ValidUuid, Addressed, Decodes, Recognised;
    events, states := SharedSubjectPurges(c, q, r);
    events, states := Extend(c, events, states, Begin(3, q));
    i := |events|;
    events, states := Extend(c, events, states, Load(3));
    events, states := Extend(c, events, states, CallHandler(3, Succeeded));
  }

  /** And the read has to happen while the record is in the mailbox: a copy that was already
      delivered and is read after the release calls the handler again. */
  lemma LateReadCallsTwice(c: Subject, r: Record) returns (events: seq<Event>, states: seq<State>, i: nat)
    requires Addressed(r, c) && Decodes(r, c)
    ensures Run(c, events, states) && i < |events| - 1 && states[|events|].published == {r}
    ensures states[i].mailbox == {} && Settled(states[i], 0, r)
    ensures 3 in states[i].deliveries && states[i].deliveries[3].record == r
    ensures events[i] == Load(3) && events[|events| - 1] == CallHandler(3, Succeeded)
  {
    hide ValidUuid, Addressed, Decodes, Recognised;
    events, states := Extend(c, [], [Init(c)], PublishRecord(r));
    events, states := Extend(c, events, states, Begin(3, r));
    events, states := SettleOnce(c, events, states, 1, r, 1, false);
    events, states := ReleaseAndPurge(c, events, states, 1, r, false);
    i := |events|;
    events, states := Extend(c, events, states, Load(3));
    events, states := Extend(c, events, states, CallHandler(3, Succeeded));
  }
}
