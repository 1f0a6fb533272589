/**
 A firewall Policy as a value: up to four nested blocks, each absent or with four reference slots, and what
 `Policy.ResolveReferences` comes to: the guarantees of module Slots for the slots of the blocks that are present.
 */
module PolicyResolution {
  import opened Wrappers
  import opened Slots
  import opened References
  import opened RepeatedResolution

  datatype Block = ForDestination | ForSource | InitDestination | InitSource

  datatype Field = IPGroupID | NetworkIds | PortGroupID | ZoneID

  datatype Slot = Slot(block: Block, field: Field)

  datatype EndpointValue = EndpointValue(
    clientMacs: Option<seq<Option<string>>>, ipGroup: SlotValue, networks: SlotValue, portGroup: SlotValue,
        zone: SlotValue)

  datatype PolicyValue = PolicyValue(
    namespace: string, forDestination: Option<EndpointValue>, forSource: Option<EndpointValue>,
    initDestination: Option<EndpointValue>, initSource: Option<EndpointValue>)

  // ---- the order of the generated code ----

  const STATEMENTS: nat := 16

  /** The slot that the statement with this number resolves if its block is there. */
  function Statement(k: nat): Slot
    requires k < STATEMENTS
  {
    Slot(if k < 4 then ForDestination else if k < 8 then ForSource else if k < 12 then InitDestination else InitSource,
         if k % 4 == 0 then IPGroupID else if k % 4 == 1 then NetworkIds
         else if k % 4 == 2 then PortGroupID else ZoneID)
  }

  function Number(slot: Slot): nat {
    (match slot.block case ForDestination => 0 case ForSource => 4 case InitDestination => 8 case InitSource => 12)
    + match slot.field case IPGroupID => 0 case NetworkIds => 1 case PortGroupID => 2 case ZoneID => 3
  }

  lemma Numbered(k: nat)
    requires k < STATEMENTS
    ensures Number(Statement(k)) == k
  {
  }

  lemma Stated(slot: Slot)
    ensures Number(slot) < STATEMENTS && Statement(Number(slot)) == slot
  {
  }

  /** The sixteen statements of the generated code. */
  lemma StatementsAre()
    ensures seq(STATEMENTS, (k: nat) requires k < STATEMENTS => Statement(k)) == [
              Slot(ForDestination, IPGroupID), Slot(ForDestination, NetworkIds),
              Slot(ForDestination, PortGroupID), Slot(ForDestination, ZoneID),
              Slot(ForSource, IPGroupID), Slot(ForSource, NetworkIds), Slot(ForSource, PortGroupID),
                  Slot(ForSource, ZoneID),
              Slot(InitDestination, IPGroupID), Slot(InitDestination, NetworkIds),
              Slot(InitDestination, PortGroupID), Slot(InitDestination, ZoneID),
              Slot(InitSource, IPGroupID), Slot(InitSource, NetworkIds), Slot(InitSource, PortGroupID),
                  Slot(InitSource, ZoneID)]
  {
  }

  function BlockOf(p: PolicyValue, block: Block): Option<EndpointValue> {
    match block
    case ForDestination => p.forDestination
    case ForSource => p.forSource
    case InitDestination => p.initDestination
    case InitSource => p.initSource
  }

  predicate HasSlot(p: PolicyValue, slot: Slot) {
    BlockOf(p, slot.block).Some?
  }

  /** The slots visited by the first `k` statements: those behind a nil guard are skipped. */
  function Visited(p: PolicyValue, k: nat): seq<Slot>
    requires k <= STATEMENTS
  {
    if k == 0 then []
    else if HasSlot(p, Statement(k - 1)) then Visited(p, k - 1) + [Statement(k - 1)]
    else Visited(p, k - 1)
  }

  function Order(p: PolicyValue): seq<Slot> {
    Visited(p, STATEMENTS)
  }

  // ---- slots ----

  function EndpointField(e: EndpointValue, field: Field): SlotValue {
    match field
    case IPGroupID => e.ipGroup
    case NetworkIds => e.networks
    case PortGroupID => e.portGroup
    case ZoneID => e.zone
  }

  function WithEndpointField(e: EndpointValue, field: Field, v: SlotValue): EndpointValue {
    match field
    case IPGroupID => e.(ipGroup := v)
    case NetworkIds => e.(networks := v)
    case PortGroupID => e.(portGroup := v)
    case ZoneID => e.(zone := v)
  }

  function WithBlock(p: PolicyValue, block: Block, e: EndpointValue): PolicyValue {
    match block
    case ForDestination => p.(forDestination := Some(e))
    case ForSource => p.(forSource := Some(e))
    case InitDestination => p.(initDestination := Some(e))
    case InitSource => p.(initSource := Some(e))
  }

  function SlotAt(p: PolicyValue, slot: Slot): SlotValue
    requires HasSlot(p, slot)
  {
    EndpointField(BlockOf(p, slot.block).value, slot.field)
  }

  function WithSlot(p: PolicyValue, slot: Slot, v: SlotValue): PolicyValue
    requires HasSlot(p, slot)
  {
    WithBlock(p, slot.block, WithEndpointField(BlockOf(p, slot.block).value, slot.field, v))
  }

  function SlotsOf(p: PolicyValue): map<Slot, SlotValue> {
    map s | s in Order(p) && HasSlot(p, s) :: SlotAt(p, s)
  }

  const NO_SLOT: SlotValue := One(None, None, None)

  function RestOfBlock(b: Option<EndpointValue>): Option<EndpointValue> {
    match b
    case None => None
    case Some(e) => Some(EndpointValue(e.clientMacs, NO_SLOT, NO_SLOT, NO_SLOT, NO_SLOT))
  }

  /** Everything but the slots: which blocks are nil, and all other fields. */
  function RestOf(p: PolicyValue): PolicyValue {
    PolicyValue(p.namespace, RestOfBlock(p.forDestination), RestOfBlock(p.forSource),
                RestOfBlock(p.initDestination), RestOfBlock(p.initSource))
  }

  lemma {:induction false} VisitedIs(p: PolicyValue, k: nat)
    requires k <= STATEMENTS
    ensures NoRepeats(Visited(p, k))
    ensures forall s :: s in Visited(p, k) <==> HasSlot(p, s) && Number(s) < k
    ensures Visited(p, k) <= Order(p)
    decreases STATEMENTS - k
  {
    VisitedBelow(p, k);
    if k < STATEMENTS {
      VisitedIs(p, k + 1);
    }
  }

  lemma {:induction false} VisitedBelow(p: PolicyValue, k: nat)
    requires k <= STATEMENTS
    ensures NoRepeats(Visited(p, k))
    ensures forall s :: s in Visited(p, k) <==> HasSlot(p, s) && Number(s) < k
  {
    if k > 0 {
      VisitedBelow(p, k - 1);
      Numbered(k - 1);
      forall s: Slot ensures Number(s) == k - 1 ==> s == Statement(k - 1) { Stated(s); }
    }
  }

  lemma SlotsDomain(p: PolicyValue)
    ensures forall s :: s in SlotsOf(p) <==> HasSlot(p, s)
    ensures forall s :: s in Order(p) <==> s in SlotsOf(p)
    ensures NoRepeats(Order(p)) && Covers(SlotsOf(p), Order(p))
  {
    VisitedIs(p, STATEMENTS);
    forall s: Slot ensures Number(s) < STATEMENTS { Stated(s); }
  }

  /** Which part of a policy each slot is. */
  lemma SlotsAre(p: PolicyValue, field: Field)
    ensures HasSlot(p, Slot(ForDestination, field)) <==> p.forDestination.Some?
    ensures HasSlot(p, Slot(ForSource, field)) <==> p.forSource.Some?
    ensures HasSlot(p, Slot(InitDestination, field)) <==> p.initDestination.Some?
    ensures HasSlot(p, Slot(InitSource, field)) <==> p.initSource.Some?
    ensures p.forDestination.Some? ==> FieldIs(p.forDestination.value, field, SlotAt(p, Slot(ForDestination, field)))
    ensures p.forSource.Some? ==> FieldIs(p.forSource.value, field, SlotAt(p, Slot(ForSource, field)))
    ensures p.initDestination.Some? ==> FieldIs(p.initDestination.value, field, SlotAt(p, Slot(InitDestination, field)))
    ensures p.initSource.Some? ==> FieldIs(p.initSource.value, field, SlotAt(p, Slot(InitSource, field)))
  {
  }

  predicate FieldIs(e: EndpointValue, field: Field, v: SlotValue) {
    && (field == IPGroupID ==> v == e.ipGroup) && (field == NetworkIds ==> v == e.networks)
    && (field == PortGroupID ==> v == e.portGroup) && (field == ZoneID ==> v == e.zone)
  }

  /** Writing one slot changes that slot and nothing else. */
  lemma WithSlotIs(p: PolicyValue, slot: Slot, v: SlotValue)
    requires HasSlot(p, slot)
    ensures SlotsOf(WithSlot(p, slot, v)) == SlotsOf(p)[slot := v]
    ensures RestOf(WithSlot(p, slot, v)) == RestOf(p)
  {
    hide Order, SlotAt, WithSlot, HasSlot, RestOf;
    var q := WithSlot(p, slot, v);
    SlotsDomain(p);
    SlotsDomain(q);
    forall s: Slot ensures HasSlot(q, s) <==> HasSlot(p, s) { SlotWritten(p, slot, v, s); }
    assert SlotsOf(q).Keys == SlotsOf(p)[slot := v].Keys;
    forall s | HasSlot(p, s) ensures SlotsOf(q)[s] == SlotsOf(p)[slot := v][s] { SlotWritten(p, slot, v, s); }
    RestKept(p, slot, v);
  }

  lemma SlotWritten(p: PolicyValue, slot: Slot, v: SlotValue, s: Slot)
    requires HasSlot(p, slot)
    ensures HasSlot(WithSlot(p, slot, v), s) <==> HasSlot(p, s)
    ensures HasSlot(p, s) ==> SlotAt(WithSlot(p, slot, v), s) == if s == slot then v else SlotAt(p, s)
  {
  }

  lemma RestKept(p: PolicyValue, slot: Slot, v: SlotValue)
    requires HasSlot(p, slot)
    ensures RestOf(WithSlot(p, slot, v)) == RestOf(p)
  {
  }

  /** The slots and the rest make up the whole policy. */
  lemma PolicyDetermined(p: PolicyValue, q: PolicyValue)
    requires SlotsOf(p) == SlotsOf(q) && RestOf(p) == RestOf(q)
    ensures p == q
  {
    hide Order;
    SlotsDomain(p);
    SlotsDomain(q);
    forall block: Block ensures BlockOf(p, block) == BlockOf(q, block) {
      BlockDetermined(p, q, block);
    }
    assert BlockOf(p, ForDestination) == BlockOf(q, ForDestination) && BlockOf(p, ForSource) == BlockOf(q, ForSource);
    assert BlockOf(p, InitDestination) == BlockOf(q, InitDestination)
        && BlockOf(p, InitSource) == BlockOf(q, InitSource);
  }

  lemma BlockDetermined(p: PolicyValue, q: PolicyValue, block: Block)
    requires SlotsOf(p) == SlotsOf(q) && RestOf(p) == RestOf(q)
    ensures BlockOf(p, block) == BlockOf(q, block)
  {
    hide Order;
    SlotsDomain(p);
    SlotsDomain(q);
    if BlockOf(p, block).Some? {
      forall field: Field ensures SlotAt(p, Slot(block, field)) == SlotAt(q, Slot(block, field)) {
        assert HasSlot(p, Slot(block, field)) && HasSlot(q, Slot(block, field));
        assert SlotsOf(p)[Slot(block, field)] == SlotsOf(q)[Slot(block, field)];
      }
      assert SlotAt(p, Slot(block, IPGroupID)) == SlotAt(q, Slot(block, IPGroupID));
      assert SlotAt(p, Slot(block, NetworkIds)) == SlotAt(q, Slot(block, NetworkIds));
      assert SlotAt(p, Slot(block, PortGroupID)) == SlotAt(q, Slot(block, PortGroupID));
      assert SlotAt(p, Slot(block, ZoneID)) == SlotAt(q, Slot(block, ZoneID));
    }
  }

  // ---- resolution ----

  function TargetOf(slot: Slot): Kind {
    match slot.field
    case IPGroupID => Group
    case NetworkIds => Network
    case PortGroupID => Group
    case ZoneID => Zone
  }

  function Step(resolver: Resolver, namespace: string): Resolution<Slot, SlotValue, Error> {
    StepOf(resolver, namespace, TargetOf)
  }

  /** One call of `ResolveReferences`: the slots it leaves behind and where it stopped. */
  ghost function Resolved(resolver: Resolver, p: PolicyValue): Outcome<Slot, SlotValue, Error> {
    SlotsDomain(p);
    Resolve(Step(resolver, p.namespace), SlotsOf(p), Order(p))
  }

  /**
   The slots of the present blocks that come before the failing one hold answers to their original contents, all
   others are as they were; without a failure every slot of every present block is answered.
   */
  lemma PolicyExact(resolver: Resolver, p: PolicyValue)
    ensures forall slot :: slot in Resolved(resolver, p).state <==> HasSlot(p, slot)
    ensures forall slot :: HasSlot(p, slot) ==>
              var r := Resolved(resolver, p);
              var to := if slot.field == NetworkIds then Network else if slot.field == ZoneID then Zone else Group;
              var answer := ResolveSlot(resolver, to, p.namespace, SlotAt(p, slot));
              if r.failedAt.None? || Number(slot) < Number(r.failedAt.value.0)
              then answer.Ok? && r.state[slot] == answer.value
              else r.state[slot] == SlotAt(p, slot)
    ensures match Resolved(resolver, p).failedAt
            case None => true
            case Some((slot, error)) =>
              var to := if slot.field == NetworkIds then Network else if slot.field == ZoneID then Zone else Group;
              HasSlot(p, slot) && ResolveSlot(resolver, to, p.namespace, SlotAt(p, slot)) == Err(error)
  {
    hide TargetOf, ResolveSlot, Resolved, HasSlot, SlotAt, Number;
    PolicyAnswered(resolver, p);
    forall slot: Slot
      ensures TargetOf(slot) == if slot.field == NetworkIds then Network else if slot.field == ZoneID then Zone
              else Group
    {
      TargetIs(slot);
    }
  }

  /** What a slot refers to. */
  lemma TargetIs(slot: Slot)
    ensures TargetOf(slot) == if slot.field == NetworkIds then Network else if slot.field == ZoneID then Zone else Group
  {
  }

  lemma PolicyAnswered(resolver: Resolver, p: PolicyValue)
    ensures forall slot :: slot in Resolved(resolver, p).state <==> HasSlot(p, slot)
    ensures forall slot :: HasSlot(p, slot) ==>
              var r := Resolved(resolver, p);
              var answer := ResolveSlot(resolver, TargetOf(slot), p.namespace, SlotAt(p, slot));
              if r.failedAt.None? || Number(slot) < Number(r.failedAt.value.0)
              then answer.Ok? && r.state[slot] == answer.value
              else r.state[slot] == SlotAt(p, slot)
    ensures match Resolved(resolver, p).failedAt
            case None => true
            case Some((slot, error)) =>
              HasSlot(p, slot) && ResolveSlot(resolver, TargetOf(slot), p.namespace, SlotAt(p, slot)) == Err(error)
  {
    hide Order, ResolveSlot, SlotAt, Number;
    SlotsDomain(p);
    var order, step := Order(p), Step(resolver, p.namespace);
    var n := ResolveExact(step, SlotsOf(p), order);
    if n < |order| { assert order[n] in order; }
    forall slot | HasSlot(p, slot)
      ensures slot in order[..n] <==>
                var failed := Resolved(resolver, p).failedAt;
                failed.None? || Number(slot) < Number(failed.value.0)
      ensures slot in order[..n] ==> ResolveSlot(resolver, TargetOf(slot), p.namespace, SlotAt(p, slot)).Ok?
    {
      assert slot in order;
      var i :| 0 <= i < |order| && order[i] == slot;
      if i < n {
        assert order[..n][i] == slot && Resolvable(step, SlotsOf(p), order[i]);
      }
      if n < |order| {
        Ascending(p, i, n);
      }
    }
  }

  lemma Ascending(p: PolicyValue, i: nat, j: nat)
    requires i < |Order(p)| && j < |Order(p)|
    ensures Number(Order(p)[i]) < Number(Order(p)[j]) <==> i < j
  {
    VisitedAscends(p, STATEMENTS);
  }

  lemma {:induction false} VisitedAscends(p: PolicyValue, k: nat)
    requires k <= STATEMENTS
    ensures forall i, j :: 0 <= i < j < |Visited(p, k)| ==> Number(Visited(p, k)[i]) < Number(Visited(p, k)[j])
  {
    if k > 0 {
      VisitedAscends(p, k - 1);
      VisitedBelow(p, k - 1);
      Numbered(k - 1);
      var before := Visited(p, k - 1);
      forall i | 0 <= i < |before| ensures Number(before[i]) < k - 1 {
        assert before[i] in before;
      }
    }
  }

  /** On the slots of this policy the resolver fails or answers as `single` does, now and once the answer is stored. */
  ghost predicate StandsByAnswers(r: Resolver, single: Resolver, p: PolicyValue) {
    forall slot | HasSlot(p, slot) :: StandsBy(r, single, TargetOf(slot), p.namespace, SlotAt(p, slot))
  }

  /** After any number of attempts, one success leaves the slots of a single successful call on the original policy. */
  lemma PolicyConverges(attempts: seq<Resolver>, last: Resolver, single: Resolver, p: PolicyValue)
    requires forall r :: r in attempts + [last] ==> StandsByAnswers(r, single, p)
    requires Resolved(single, p).failedAt.None? && AfterAttempts(attempts, last, p).failedAt.None?
    ensures AfterAttempts(attempts, last, p).state == Resolved(single, p).state
  {
    SlotsDomain(p);
    forall r | r in attempts + [last] ensures StandsByAll(r, single, p.namespace, TargetOf, SlotsOf(p), Order(p)) {
      AllStandBy(r, single, p);
    }
    ReferencesConverge(attempts, last, single, p.namespace, TargetOf, SlotsOf(p), Order(p));
  }

  lemma AllStandBy(r: Resolver, single: Resolver, p: PolicyValue)
    requires StandsByAnswers(r, single, p)
    ensures StandsByAll(r, single, p.namespace, TargetOf, SlotsOf(p), Order(p))
  {
    hide StandsBy, Order;
    SlotsDomain(p);
  }

  /** The policies that the attempts and the single call end in are the same. */
  lemma PoliciesMeet(attempts: seq<Resolver>, last: Resolver, single: Resolver, start: PolicyValue, p: PolicyValue,
                     q: PolicyValue)
    requires forall r :: r in attempts + [last] ==> StandsByAnswers(r, single, start)
    requires AfterAttempts(attempts, last, start) == Outcome(SlotsOf(p), None) && RestOf(p) == RestOf(start)
    requires Resolved(single, start) == Outcome(SlotsOf(q), None) && RestOf(q) == RestOf(start)
    ensures p == q
  {
    hide AfterAttempts, Resolved, SlotsOf, RestOf, StandsByAnswers;
    PolicyConverges(attempts, last, single, start);
    PolicyDetermined(p, q);
  }

  /** The outcome of a call with `last` after calls with each of `attempts`, all on the same policy. */
  ghost function AfterAttempts(attempts: seq<Resolver>, last: Resolver, p: PolicyValue)
    : Outcome<Slot, SlotValue, Error>
  {
    SlotsDomain(p);
    Resolve(Step(last, p.namespace), Attempts(StepsOf(attempts, p.namespace, TargetOf), SlotsOf(p), Order(p)), Order(p))
  }

  // ---- one statement after another ----

  /** The first `k` statements have been run without an error. */
  ghost predicate Reached(resolver: Resolver, start: PolicyValue, k: nat, current: PolicyValue) {
    && k <= STATEMENTS && Covers(SlotsOf(start), Visited(start, k))
    && Resolve(Step(resolver, start.namespace), SlotsOf(start), Visited(start, k)) == Outcome(SlotsOf(current), None)
    && RestOf(current) == RestOf(start)
  }

  /** The call has ended as specified. */
  ghost predicate Done(resolver: Resolver, start: PolicyValue, current: PolicyValue, error: Option<(Slot, Error)>) {
    Resolved(resolver, start) == Outcome(SlotsOf(current), error) && RestOf(current) == RestOf(start)
  }

  lemma NothingDone(resolver: Resolver, p: PolicyValue)
    ensures Reached(resolver, p, 0, p)
  {
  }

  lemma AllDone(resolver: Resolver, start: PolicyValue, current: PolicyValue)
    requires Reached(resolver, start, STATEMENTS, current)
    ensures Done(resolver, start, current, None)
  {
  }

  lemma SameBlocks(resolver: Resolver, start: PolicyValue, k: nat, current: PolicyValue, slot: Slot)
    requires Reached(resolver, start, k, current)
    ensures HasSlot(current, slot) <==> HasSlot(start, slot)
    ensures current.namespace == start.namespace
  {
    hide Resolve, Visited, SlotsOf;
  }

  /** A statement behind a nil guard does nothing; any other resolves its slot or ends the call. */
  lemma StatementStep(resolver: Resolver, start: PolicyValue, k: nat, current: PolicyValue)
    requires k < STATEMENTS && Reached(resolver, start, k, current)
    ensures var slot := Statement(k);
            if !HasSlot(current, slot) then Reached(resolver, start, k + 1, current)
            else match ResolveSlot(resolver, TargetOf(slot), current.namespace, SlotAt(current, slot))
                 case Ok(v) => Reached(resolver, start, k + 1, WithSlot(current, slot, v))
                 case Err(e) => Done(resolver, start, current, Some((slot, e)))
  {
    hide Resolve, Statement, ResolveSlot, WithSlot, SlotsOf, SlotAt, HasSlot;
    var slot := Statement(k);
    SameBlocks(resolver, start, k, current, slot);
    if HasSlot(current, slot) {
      SlotStep(resolver, start, k, current);
    }
  }

  lemma SlotStep(resolver: Resolver, start: PolicyValue, k: nat, current: PolicyValue)
    requires k < STATEMENTS && Reached(resolver, start, k, current) && HasSlot(current, Statement(k))
            && HasSlot(start, Statement(k))
    ensures var slot := Statement(k);
            match ResolveSlot(resolver, TargetOf(slot), current.namespace, SlotAt(current, slot))
            case Ok(v) => Reached(resolver, start, k + 1, WithSlot(current, slot, v))
            case Err(e) => Done(resolver, start, current, Some((slot, e)))
  {
    hide Resolve, Statement, WithSlot, HasSlot, Number;
    var slot, step := Statement(k), Step(resolver, start.namespace);
    SlotsDomain(start);
    SlotsDomain(current);
    assert slot in SlotsOf(start) && slot in SlotsOf(current) && SlotsOf(current)[slot] == SlotAt(current, slot);
    ResolveNext(step, SlotsOf(start), Visited(start, k), slot);
    match ResolveSlot(resolver, TargetOf(slot), current.namespace, SlotAt(current, slot))
    case Ok(v) => WithSlotIs(current, slot, v);
    case Err(_) =>
      VisitedIs(start, k + 1);
      ResolveStopped(step, SlotsOf(start), Visited(start, k + 1), Order(start));
  }

  // ---- one call after another ----

  lemma OneAttempt(last: Resolver, p: PolicyValue)
    ensures AfterAttempts([], last, p) == Resolved(last, p)
  {
    hide Order, SlotsOf;
    assert StepsOf([], p.namespace, TargetOf) == [];
  }

  /** What the first attempt leaves is where the remaining ones start. */
  lemma FirstAttempt(attempts: seq<Resolver>, last: Resolver, p: PolicyValue, q: PolicyValue)
    requires attempts != [] && SlotsOf(q) == Resolved(attempts[0], p).state && RestOf(q) == RestOf(p)
    ensures AfterAttempts(attempts, last, p) == AfterAttempts(attempts[1..], last, q)
  {
    SameVisits(p, q, STATEMENTS);
    hide Order, SlotsOf, Resolve, Visited;
    assert p.namespace == q.namespace;
    SlotsDomain(p);
    var steps := StepsOf(attempts, p.namespace, TargetOf);
    assert steps[0] == Step(attempts[0], p.namespace);
    assert steps[1..] == StepsOf(attempts[1..], p.namespace, TargetOf);
  }

  lemma {:induction false} SameVisits(p: PolicyValue, q: PolicyValue, k: nat)
    requires RestOf(p) == RestOf(q) && k <= STATEMENTS
    ensures Visited(p, k) == Visited(q, k)
    ensures k == STATEMENTS ==> Order(p) == Order(q)
  {
    hide Statement;
    if k > 0 {
      SameVisits(p, q, k - 1);
    }
  }
}
