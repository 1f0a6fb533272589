/**
 Resolvers that read from a snapshot of the API server: an example of the resolver parameter, with which the
 convergence of repeated attempts is followed while the objects that are referred to appear one after another.
 */
module Snapshots {
  import opened Wrappers
  import opened Slots
  import opened References
  import opened RepeatedResolution
  import opened DeviceValues
  import opened DeviceResolution

  /** An object that has been given its id. */
  datatype Entry = Entry(kind: Kind, namespace: string, name: string, id: string, labels: map<string, string>)

  type Object = o: Entry | o.id != "" witness Entry(Network, "", "", "0", map[])

  predicate Is(o: Object, to: Kind, namespace: string) {
    o.kind == to && o.namespace == namespace
  }

  function Find(objects: seq<Object>, to: Kind, namespace: string, name: string): (id: Option<string>)
    ensures id.Some? ==> id.value != ""
  {
    if objects == [] then None
    else if Is(objects[0], to, namespace) && objects[0].name == name then Some(objects[0].id)
    else Find(objects[1..], to, namespace, name)
  }

  function FindAll(objects: seq<Object>, to: Kind, namespace: string,
                   references: seq<Reference>): (ids: Option<seq<string>>)
    ensures ids.Some? ==> |ids.value| == |references|
  {
    if references == [] then Some([])
    else match (Find(objects, to, namespace, references[0].name), FindAll(objects, to, namespace, references[1..]))
         case (Some(id), Some(ids)) => Some([id] + ids)
         case _ => None
  }

  predicate Selects(o: Object, to: Kind, namespace: string, selector: Selector) {
    Is(o, to, namespace) && forall k <- selector.matchLabels :: k in o.labels && o.labels[k] == selector.matchLabels[k]
  }

  function Select(objects: seq<Object>, to: Kind, namespace: string, selector: Selector): seq<Object> {
    if objects == [] then []
    else (if Selects(objects[0], to, namespace, selector) then [objects[0]] else [])
         + Select(objects[1..], to, namespace, selector)
  }

  function Ids(objects: seq<Object>): seq<string> {
    seq(|objects|, i requires 0 <= i < |objects| => objects[i].id)
  }

  function Named(objects: seq<Object>): seq<Reference> {
    seq(|objects|, i requires 0 <= i < |objects| => Reference(objects[i].name, None))
  }

  /** A value that is there is kept; else the reference is followed; else the first object selected is taken. */
  function Lookup(objects: seq<Object>, req: Request): Result<Response, Error> {
    if req.currentValue != "" || (req.reference.None? && req.selector.None?) then
      Ok(Response(req.currentValue, req.reference))
    else if req.reference.Some? then
      match Find(objects, req.to, req.namespace, req.reference.value.name)
      case Some(id) => Ok(Response(id, req.reference))
      case None => Err("not found")
    else
      var selected := Select(objects, req.to, req.namespace, req.selector.value);
      if selected == [] then Err("no match") else Ok(Response(selected[0].id, Some(Reference(selected[0].name, None))))
  }

  predicate NoReferences(references: Option<seq<Reference>>) {
    references.None? || references.value == []
  }

  function LookupAll(objects: seq<Object>, req: MultiRequest): Result<MultiResponse, Error> {
    if req.currentValues != [] || (NoReferences(req.references) && req.selector.None?) then
      Ok(MultiResponse(req.currentValues, req.references))
    else if !NoReferences(req.references) then
      match FindAll(objects, req.to, req.namespace, req.references.value)
      case Some(ids) => Ok(MultiResponse(ids, req.references))
      case None => Err("not found")
    else
      var selected := Select(objects, req.to, req.namespace, req.selector.value);
      if selected == [] then Err("no match") else Ok(MultiResponse(Ids(selected), Some(Named(selected))))
  }

  function Snapshot(objects: seq<Object>): Resolver {
    Resolver((req: Request) => Lookup(objects, req), (req: MultiRequest) => LookupAll(objects, req))
  }

  // ---- two snapshots and one slot ----

  /** Both snapshots have something to fill an empty slot with, but not the same. */
  predicate Drifts(early: seq<Object>, late: seq<Object>, to: Kind, namespace: string, slot: SlotValue) {
    match slot
    case One(id, reference, selector) =>
      FromPtrValue(id) == ""
      && if reference.Some? then
           var a, b := Find(early, to, namespace, reference.value.name),
               Find(late, to, namespace, reference.value.name);
           a.Some? && b.Some? && a != b
         else
           selector.Some?
           && var a, b := Select(early, to, namespace, selector.value), Select(late, to, namespace, selector.value);
              a != [] && b != [] && !(a[0].id == b[0].id && a[0].name == b[0].name)
    case Many(ids, references, selector) =>
      FromPtrValues(ids) == []
      && if !NoReferences(references) then
           var a, b := FindAll(early, to, namespace, references.value), FindAll(late, to, namespace, references.value);
           a.Some? && b.Some? && a != b
         else
           selector.Some?
           && var a, b := Select(early, to, namespace, selector.value), Select(late, to, namespace, selector.value);
              a != [] && b != [] && !(Ids(a) == Ids(b) && Named(a) == Named(b))
  }

  /** A snapshot stands by the answers of another exactly where the slot does not drift between them. */
  lemma SnapshotStandsBy(early: seq<Object>, late: seq<Object>, to: Kind, namespace: string, slot: SlotValue)
    ensures StandsBy(Snapshot(early), Snapshot(late), to, namespace, slot)
            <==> !Drifts(early, late, to, namespace, slot)
  {
    hide Select, Find, FindAll;
    if slot.Many? && slot.selector.Some? {
      var a, b := Select(early, to, namespace, slot.selector.value), Select(late, to, namespace, slot.selector.value);
      assert |Ids(a)| == |a| && |Ids(b)| == |b|;
    }
  }

  // ---- snapshots of a server to which objects are only added ----

  /** A name stands for one object of its kind and namespace. */
  predicate UniqueNames(objects: seq<Object>) {
    forall o, p :: o in objects && p in objects && o.name == p.name && Is(o, p.kind, p.namespace) ==> o == p
  }

  /** Objects are added but not changed; where a listing puts them is open. */
  predicate Grows(early: seq<Object>, late: seq<Object>) {
    UniqueNames(late) && forall o :: o in early ==> o in late
  }

  lemma {:induction false} FindIs(objects: seq<Object>, to: Kind, namespace: string, name: string)
    ensures match Find(objects, to, namespace, name)
            case Some(id) => exists o :: o in objects && Is(o, to, namespace) && o.name == name && o.id == id
            case None => forall o :: o in objects && Is(o, to, namespace) ==> o.name != name
  {
    if objects != [] && !(Is(objects[0], to, namespace) && objects[0].name == name) {
      FindIs(objects[1..], to, namespace, name);
      assert objects == [objects[0]] + objects[1..];
    }
  }

  lemma FindKept(early: seq<Object>, late: seq<Object>, to: Kind, namespace: string, name: string)
    requires Grows(early, late) && Find(early, to, namespace, name).Some?
    ensures Find(late, to, namespace, name) == Find(early, to, namespace, name)
  {
    FindIs(early, to, namespace, name);
    FindIs(late, to, namespace, name);
  }

  lemma {:induction false} FindAllKept(early: seq<Object>, late: seq<Object>, to: Kind, namespace: string,
                                       references: seq<Reference>)
    requires Grows(early, late) && FindAll(early, to, namespace, references).Some?
    ensures FindAll(late, to, namespace, references) == FindAll(early, to, namespace, references)
  {
    if references != [] {
      FindKept(early, late, to, namespace, references[0].name);
      FindAllKept(early, late, to, namespace, references[1..]);
    }
  }

  lemma {:induction false} SelectIs(objects: seq<Object>, to: Kind, namespace: string, selector: Selector)
    ensures forall o :: o in Select(objects, to, namespace, selector)
              <==> o in objects && Selects(o, to, namespace, selector)
  {
    if objects != [] {
      SelectIs(objects[1..], to, namespace, selector);
      assert objects == [objects[0]] + objects[1..];
    }
  }

  /** An empty slot that only a selector can fill. */
  predicate Waiting(slot: SlotValue) {
    slot.selector.Some?
    && match slot
       case One(id, reference, _) => FromPtrValue(id) == "" && reference.None?
       case Many(ids, references, _) => FromPtrValues(ids) == [] && NoReferences(references)
  }

  /**
   When objects are only added, references never drift. An empty slot with a selector does exactly if something
   matched early on and the first match, or for a list the matches, are others now.
   */
  lemma GrowthDrifts(early: seq<Object>, late: seq<Object>, to: Kind, namespace: string, slot: SlotValue)
    requires Grows(early, late)
    ensures Drifts(early, late, to, namespace, slot)
            <==> Waiting(slot) && var a, b := Select(early, to, namespace, slot.selector.value),
                Select(late, to, namespace, slot.selector.value);
                                  a != [] && if slot.One? then b == [] || a[0] != b[0] else a != b
  {
    hide Select, Find, FindAll;
    if slot.selector.Some? {
      SelectIs(early, to, namespace, slot.selector.value);
      SelectIs(late, to, namespace, slot.selector.value);
      var a, b := Select(early, to, namespace, slot.selector.value), Select(late, to, namespace, slot.selector.value);
      SameObjects(a, b, late, to, namespace);
      if a != [] {
        assert a[0] in a && a[0] in b;
      }
    }
    match slot
    case One(_, reference, _) =>
      if reference.Some? && Find(early, to, namespace, reference.value.name).Some? {
        FindKept(early, late, to, namespace, reference.value.name);
      }
    case Many(_, references, _) =>
      if references.Some? && FindAll(early, to, namespace, references.value).Some? {
        FindAllKept(early, late, to, namespace, references.value);
      }
  }

  /** Among objects of one kind and namespace, names tell objects and lists of objects apart. */
  lemma SameObjects(a: seq<Object>, b: seq<Object>, all: seq<Object>, to: Kind, namespace: string)
    requires UniqueNames(all) && forall o :: o in a || o in b ==> o in all && Is(o, to, namespace)
    ensures Named(a) == Named(b) <==> a == b
    ensures a != [] && b != [] ==> (a[0].name == b[0].name <==> a[0] == b[0])
  {
    if Named(a) == Named(b) {
      assert |Named(a)| == |a| && |Named(b)| == |b|;
      forall i | 0 <= i < |a| ensures a[i] == b[i] {
        assert Named(a)[i] == Reference(a[i].name, None) && Named(b)[i] == Reference(b[i].name, None);
        assert a[i] in a && b[i] in b;
      }
    }
    if a != [] && b != [] {
      assert a[0] in a && b[0] in b;
    }
  }

  // ---- a device whose objects appear one after another ----

  function Snapshots(states: seq<seq<Object>>): seq<Resolver> {
    seq(|states|, i requires 0 <= i < |states| => Snapshot(states[i]))
  }

  /** Nothing is there yet to fill the slot, but something says what it should be. */
  predicate Pending(slot: SlotValue) {
    match slot
    case One(id, reference, selector) => FromPtrValue(id) == "" && (reference.Some? || selector.Some?)
    case Many(ids, references, selector) => FromPtrValues(ids) == [] && (!NoReferences(references) || selector.Some?)
  }

  /** While nothing exists, a call fails exactly if some slot is pending. */
  lemma NothingExists(d: DeviceValue)
    ensures Resolved(Snapshot([]), d).failedAt.Some? <==> exists slot :: HasSlot(d, slot) && Pending(SlotAt(d, slot))
  {
    hide Order;
    SlotsDomain(d);
    var step := Step(Snapshot([]), d.namespace);
    ResolveSucceeds(step, SlotsOf(d), Order(d));
    forall slot | HasSlot(d, slot) ensures Resolvable(step, SlotsOf(d), slot) <==> !Pending(SlotAt(d, slot)) {
      NothingFound(TargetOf(slot), d.namespace, SlotAt(d, slot));
    }
  }

  lemma NothingFound(to: Kind, namespace: string, slot: SlotValue)
    ensures ResolveSlot(Snapshot([]), to, namespace, slot).Ok? <==> !Pending(slot)
  {
  }

  /** A slot with a nil id that nothing asks to fill keeps it, whether or not the call succeeds. */
  lemma NilStaysNil(objects: seq<Object>, d: DeviceValue, slot: Slot)
    requires HasSlot(d, slot) && SlotAt(d, slot).One? && SlotAt(d, slot).id == None && !Pending(SlotAt(d, slot))
    ensures slot in Resolved(Snapshot(objects), d).state
    ensures var after := Resolved(Snapshot(objects), d).state[slot]; after.One? && after.id == None
  {
    hide Order, ResolveSlot, SlotAt, Snapshot, Pending;
    SlotsDomain(d);
    var step := Step(Snapshot(objects), d.namespace);
    EachSlot(step, SlotsOf(d), Order(d));
    assert SlotsOf(d)[slot] == SlotAt(d, slot);
    NilAnswered(objects, TargetOf(slot), d.namespace, SlotAt(d, slot));
    assert step(slot, SlotAt(d, slot)) == ResolveSlot(Snapshot(objects), TargetOf(slot), d.namespace, SlotAt(d, slot));
  }

  lemma NilAnswered(objects: seq<Object>, to: Kind, namespace: string, slot: SlotValue)
    requires slot.One? && slot.id == None && !Pending(slot)
    ensures var r := ResolveSlot(Snapshot(objects), to, namespace, slot); r.Ok? && r.value.One? && r.value.id == None
  {
  }

  /** The slot that the call comes to after `j` others. */
  function SlotNumber(d: DeviceValue, j: nat): Slot
    requires j < |Order(d)|
  {
    Order(d)[j]
  }

  ghost predicate DriftsAt(state: seq<Object>, all: seq<Object>, d: DeviceValue, j: nat)
    requires j < |Order(d)|
  {
    HasSlot(d, SlotNumber(d, j)) && Drifts(state, all, TargetOf(SlotNumber(d, j)), d.namespace, SlotAt(d,
            SlotNumber(d, j)))
  }

  /** The snapshot has an answer for the slot as it is. */
  ghost predicate AnswersAt(state: seq<Object>, d: DeviceValue, j: nat)
    requires j < |Order(d)|
  {
    HasSlot(d, SlotNumber(d, j))
    && ResolveSlot(Snapshot(state), TargetOf(SlotNumber(d, j)), d.namespace, SlotAt(d, SlotNumber(d, j))).Ok?
  }

  /** The first slot, from number `from` on, for which the snapshot has no answer. */
  ghost function FirstUnanswered(state: seq<Object>, d: DeviceValue, from: nat): (n: nat)
    requires from <= |Order(d)|
    ensures from <= n <= |Order(d)|
    ensures forall j :: from <= j < n ==> AnswersAt(state, d, j)
    ensures n < |Order(d)| ==> !AnswersAt(state, d, n)
    decreases |Order(d)| - from
  {
    if from < |Order(d)| && AnswersAt(state, d, from) then FirstUnanswered(state, d, from + 1) else from
  }

  /** No slot drifts between the attempt that first comes to it and the final state of the server. */
  ghost predicate NoneDrifts(attempts: seq<seq<Object>>, all: seq<Object>, d: DeviceValue, from: nat)
    requires from <= |Order(d)|
    decreases |attempts|
  {
    attempts != [] ==>
      var n := FirstUnanswered(attempts[0], d, from);
      (forall j | from <= j < n :: !DriftsAt(attempts[0], all, d, j)) && NoneDrifts(attempts[1..], all, d, n)
  }

  /**
   The exact outcome of attempts against any earlier states of the server: the call made when everything the device
   refers to exists succeeds, and it ends as if it had been the only one if and only if no slot drifts after the
   attempt that first came to it.
   */
  lemma DeviceConvergesAsObjectsAppear(attempts: seq<seq<Object>>, all: seq<Object>, d: DeviceValue)
    requires Resolved(Snapshot(all), d).failedAt.None?
    ensures AfterAttempts(Snapshots(attempts), Snapshot(all), d).failedAt.None?
    ensures AfterAttempts(Snapshots(attempts), Snapshot(all), d) == Resolved(Snapshot(all), d)
            <==> NoneDrifts(attempts, all, d, 0)
  {
    hide Order, Drifts, Resolve, ResolveSlot, Snapshot, SlotAt;
    SlotsDomain(d);
    var steps, last := StepsOf(Snapshots(attempts), d.namespace, TargetOf), Step(Snapshot(all), d.namespace);
    SnapshotsSticky(attempts + [all], d);
    assert StepsOf(Snapshots(attempts + [all]), d.namespace, TargetOf) == steps + [last];
    ConvergesExactly(steps, last, SlotsOf(d), Order(d));
    AllAnswered(all, d);
    DriftsDecide(attempts, all, d, 0);
  }

  lemma SnapshotsSticky(states: seq<seq<Object>>, d: DeviceValue)
    ensures Sticky(StepsOf(Snapshots(states), d.namespace, TargetOf), SlotsOf(d), Order(d))
  {
    hide Order, ResolveSlot, Snapshot, SlotAt;
    SlotsDomain(d);
    var family := StepsOf(Snapshots(states), d.namespace, TargetOf);
    forall r, slot | r in family && slot in Order(d) && slot in SlotsOf(d) && r(slot, SlotsOf(d)[slot]).Ok?
      ensures Kept(family, slot, r(slot, SlotsOf(d)[slot]).value)
    {
      var i :| 0 <= i < |states| && family[i] == r;
      forall q | q in family ensures q(slot, r(slot, SlotsOf(d)[slot]).value)
          == Result<SlotValue, Error>.Ok(r(slot, SlotsOf(d)[slot]).value) {
        var k :| 0 <= k < |states| && family[k] == q;
        AnswerKept(states[i], states[k], TargetOf(slot), d.namespace, SlotAt(d, slot));
      }
    }
  }

  lemma AllAnswered(all: seq<Object>, d: DeviceValue)
    requires Resolved(Snapshot(all), d).failedAt.None?
    ensures forall j :: 0 <= j < |Order(d)| ==> AnswersAt(all, d, j)
  {
    hide Order, ResolveSlot, Snapshot, SlotAt;
    SlotsDomain(d);
    var step := Step(Snapshot(all), d.namespace);
    ResolveSucceeds(step, SlotsOf(d), Order(d));
    forall j | 0 <= j < |Order(d)| ensures AnswersAt(all, d, j) {
      assert Order(d)[j] in Order(d) && Resolvable(step, SlotsOf(d), Order(d)[j]);
    }
  }

  /** Drifting is what makes a first answer differ from the last. */
  lemma {:induction false} DriftsDecide(attempts: seq<seq<Object>>, all: seq<Object>, d: DeviceValue, from: nat)
    requires from <= |Order(d)| && forall j :: 0 <= j < |Order(d)| ==> AnswersAt(all, d, j)
    ensures Covers(SlotsOf(d), Order(d))
    ensures FirstAnswersLast(StepsOf(Snapshots(attempts), d.namespace, TargetOf), Step(Snapshot(all), d.namespace),
                             SlotsOf(d), Order(d), from)
            <==> NoneDrifts(attempts, all, d, from)
    decreases |attempts|
  {
    hide Order, ResolveSlot, Snapshot, SlotAt, Drifts;
    SlotsDomain(d);
    if attempts != [] {
      var step, last := Step(Snapshot(attempts[0]), d.namespace), Step(Snapshot(all), d.namespace);
      var n := FirstUnanswered(attempts[0], d, from);
      ReachesUnanswered(attempts[0], d, from);
      forall j | from <= j < n
        ensures step(Order(d)[j], SlotsOf(d)[Order(d)[j]]) == last(Order(d)[j], SlotsOf(d)[Order(d)[j]])
                <==> !DriftsAt(attempts[0], all, d, j)
      {
        assert Order(d)[j] in Order(d) && AnswersAt(all, d, j) && AnswersAt(attempts[0], d, j);
        EarlyAnswer(attempts[0], all, TargetOf(Order(d)[j]), d.namespace, SlotAt(d, Order(d)[j]));
      }
      DriftsDecide(attempts[1..], all, d, n);
      assert Snapshots(attempts)[1..] == Snapshots(attempts[1..]);
      assert StepsOf(Snapshots(attempts), d.namespace, TargetOf)[1..]
          == StepsOf(Snapshots(attempts[1..]), d.namespace, TargetOf);
    }
  }

  lemma {:induction false} ReachesUnanswered(state: seq<Object>, d: DeviceValue, from: nat)
    requires from <= |Order(d)|
    ensures Covers(SlotsOf(d), Order(d))
    ensures Reach(Step(Snapshot(state), d.namespace), SlotsOf(d), Order(d), from) == FirstUnanswered(state, d, from)
    decreases |Order(d)| - from
  {
    hide Order, ResolveSlot, Snapshot, SlotAt;
    SlotsDomain(d);
    if from < |Order(d)| {
      assert Order(d)[from] in Order(d);
      ReachesUnanswered(state, d, from + 1);
    }
  }

  /**
   One early attempt leaves no trace if and only if it stops before every slot that drifts: an earlier slot could not
   be answered yet.
   */
  lemma OneEarlyAttempt(early: seq<Object>, all: seq<Object>, d: DeviceValue)
    requires Resolved(Snapshot(all), d).failedAt.None?
    ensures AfterAttempts([Snapshot(early)], Snapshot(all), d).failedAt.None?
    ensures AfterAttempts([Snapshot(early)], Snapshot(all), d) == Resolved(Snapshot(all), d)
            <==> forall j :: 0 <= j < |Order(d)| && DriftsAt(early, all, d, j) ==>
                   exists i :: 0 <= i < j && !AnswersAt(early, d, i)
  {
    hide Order, Drifts, Resolve, ResolveSlot, Snapshot, SlotAt, Resolved, AfterAttempts;
    DeviceConvergesAsObjectsAppear([early], all, d);
    assert Snapshots([early]) == [Snapshot(early)] && [early][1..] == [];
    var n := FirstUnanswered(early, d, 0);
    if n < |Order(d)| && DriftsAt(early, all, d, n) {
      DriftsAnswered(early, all, TargetOf(Order(d)[n]), d.namespace, SlotAt(d, Order(d)[n]));
    }
  }

  lemma DriftsAnswered(early: seq<Object>, all: seq<Object>, to: Kind, namespace: string, slot: SlotValue)
    requires Drifts(early, all, to, namespace, slot)
    ensures ResolveSlot(Snapshot(early), to, namespace, slot).Ok?
  {
    hide Find, FindAll, Select;
  }

  /** What one snapshot has answered, no snapshot changes. */
  lemma AnswerKept(objects: seq<Object>, others: seq<Object>, to: Kind, namespace: string, slot: SlotValue)
    requires ResolveSlot(Snapshot(objects), to, namespace, slot).Ok?
    ensures var answer := ResolveSlot(Snapshot(objects), to, namespace, slot);
            ResolveSlot(Snapshot(others), to, namespace, answer.value) == answer
  {
    hide Select, Find;
    match slot
    case One(_, _, _) =>
    case Many(_, _, _) =>
      PtrValuesRoundTrip(LookupAll(objects, SlotMultiRequest(to, namespace, slot)).value.resolvedValues);
  }

  /** The answers of an earlier and a later snapshot differ exactly where the slot drifts. */
  lemma EarlyAnswer(early: seq<Object>, all: seq<Object>, to: Kind, namespace: string, slot: SlotValue)
    requires ResolveSlot(Snapshot(early), to, namespace, slot).Ok?
            && ResolveSlot(Snapshot(all), to, namespace, slot).Ok?
    ensures ResolveSlot(Snapshot(early), to, namespace, slot) == ResolveSlot(Snapshot(all), to, namespace, slot)
            <==> !Drifts(early, all, to, namespace, slot)
  {
    hide Drifts;
    SnapshotStandsBy(early, all, to, namespace, slot);
    if slot.Many? {
      PtrValuesRoundTrip(LookupAll(early, SlotMultiRequest(to, namespace, slot)).value.resolvedValues);
      PtrValuesRoundTrip(LookupAll(all, SlotMultiRequest(to, namespace, slot)).value.resolvedValues);
    }
  }

  // ---- examples ----

  lemma DeviceSucceeds(resolver: Resolver, d: DeviceValue)
    ensures Resolved(resolver, d).failedAt.None?
            <==> forall slot :: HasSlot(d, slot) ==>
                   ResolveSlot(resolver, TargetOf(slot), d.namespace, SlotAt(d, slot)).Ok?
  {
    hide ResolveSlot, Order, SlotAt, HasSlot;
    SlotsDomain(d);
    ResolveSucceeds(Step(resolver, d.namespace), SlotsOf(d), Order(d));
    assert forall slot :: HasSlot(d, slot) ==> slot in Order(d);
    assert forall slot :: slot in SlotsOf(d) ==>
      (Resolvable(Step(resolver, d.namespace), SlotsOf(d), slot)
       <==> ResolveSlot(resolver, TargetOf(slot), d.namespace, SlotAt(d, slot)).Ok?);
  }

  /** The first statement of a call fails. */
  lemma ManagementFails(resolver: Resolver, d: DeviceValue)
    requires ResolveSlot(resolver, Network, d.namespace, SlotAt(d, MgmtNetworkID(ForProvider))).Err?
    ensures Resolved(resolver, d).failedAt
            == Some((MgmtNetworkID(ForProvider),
                     ResolveSlot(resolver, Network, d.namespace, SlotAt(d, MgmtNetworkID(ForProvider))).error))
  {
    hide ResolveSlot, Phases;
    SlotsDomain(d);
    var slot, step := MgmtNetworkID(ForProvider), Step(resolver, d.namespace);
    assert Order(d)[0] == slot && HasSlot(d, slot) && slot in SlotsOf(d);
    assert TargetOf(slot) == Network && SlotsOf(d)[slot] == SlotAt(d, slot);
    assert step(slot, SlotsOf(d)[slot]) == ResolveSlot(resolver, Network, d.namespace, SlotAt(d, slot));
  }

  function OneNetwork(): seq<Object> {
    [Entry(Network, "", "x", "2", map[])]
  }

  /** The other network is listed first. */
  function TwoNetworks(): seq<Object> {
    [Entry(Network, "", "a", "1", map[])] + OneNetwork()
  }

  const ANY_NETWORK := Selector(map[])

  const NO_PARAMETERS := ParametersValue(None, NO_SLOT, None, None)

  lemma Selected()
    ensures Select([], Network, "", ANY_NETWORK) == []
    ensures Select(OneNetwork(), Network, "", ANY_NETWORK) == OneNetwork()
    ensures Select(TwoNetworks(), Network, "", ANY_NETWORK) == TwoNetworks()
    ensures Find(TwoNetworks(), Network, "", "a") == Some("1") && Find(OneNetwork(), Network, "", "a").None?
    ensures Grows(OneNetwork(), TwoNetworks())
  {
    assert OneNetwork()[1..] == [] && TwoNetworks()[1..] == OneNetwork();
  }

  /** Its management network is to be the one called a. */
  function WaitingDevice(): DeviceValue {
    DeviceValue("", NO_PARAMETERS.(mgmtNetwork := One(None, Some(Reference("a", None)), None)), NO_PARAMETERS)
  }

  /**
   Before the network exists a call fails, afterwards one succeeds and ends as if it had been the first; that the
   two snapshots would fill other slots differently does not matter.
   */
  lemma NetworkAppears()
    ensures Resolved(Snapshot(OneNetwork()), WaitingDevice()).failedAt
            == Some((MgmtNetworkID(ForProvider), "not found"))
    ensures Resolved(Snapshot(TwoNetworks()), WaitingDevice()).failedAt.None?
    ensures AfterAttempts([Snapshot(OneNetwork())], Snapshot(TwoNetworks()), WaitingDevice())
            == Resolved(Snapshot(TwoNetworks()), WaitingDevice())
  {
    hide Resolve, Order, ResolveSlot, Snapshot, Resolved, AfterAttempts, Drifts, OneNetwork, TwoNetworks;
    WaitingSlots();
    ManagementFails(Snapshot(OneNetwork()), WaitingDevice());
    DeviceSucceeds(Snapshot(TwoNetworks()), WaitingDevice());
    OneEarlyAttempt(OneNetwork(), TwoNetworks(), WaitingDevice());
  }

  lemma WaitingSlots()
    ensures ResolveSlot(Snapshot(OneNetwork()), Network, "", SlotAt(WaitingDevice(), MgmtNetworkID(ForProvider)))
            == Err("not found")
    ensures forall slot :: HasSlot(WaitingDevice(), slot) ==>
              && ResolveSlot(Snapshot(TwoNetworks()), TargetOf(slot), "", SlotAt(WaitingDevice(), slot)).Ok?
              && !Drifts(OneNetwork(), TwoNetworks(), TargetOf(slot), "", SlotAt(WaitingDevice(), slot))
  {
    hide Select, Find, OneNetwork, TwoNetworks;
    Selected();
  }

  /** Its management network is to be any. */
  function AnyNetworkDevice(): DeviceValue {
    DeviceValue("", NO_PARAMETERS.(mgmtNetwork := One(None, None, Some(ANY_NETWORK))), NO_PARAMETERS)
  }

  /** A single slot that drifts: the early call takes the only network, a call made later the one listed first. */
  lemma SlotDrifts()
    ensures var d := AnyNetworkDevice();
            && Resolved(Snapshot(OneNetwork()), d).failedAt.None? && Resolved(Snapshot(TwoNetworks()), d).failedAt.None?
            && AfterAttempts([Snapshot(OneNetwork())], Snapshot(TwoNetworks()),
                             d) != Resolved(Snapshot(TwoNetworks()), d)
  {
    hide Resolve, ResolveSlot, Snapshot, Resolved, AfterAttempts, Drifts, OneNetwork, TwoNetworks, Phases;
    var d := AnyNetworkDevice();
    AnyNetworkSlots();
    DeviceSucceeds(Snapshot(OneNetwork()), d);
    DeviceSucceeds(Snapshot(TwoNetworks()), d);
    OneEarlyAttempt(OneNetwork(), TwoNetworks(), d);
    assert Order(d)[0] == MgmtNetworkID(ForProvider);
    assert DriftsAt(OneNetwork(), TwoNetworks(), d, 0);
  }

  lemma AnyNetworkSlots()
    ensures forall slot :: HasSlot(AnyNetworkDevice(), slot) ==>
              && ResolveSlot(Snapshot(OneNetwork()), TargetOf(slot), "", SlotAt(AnyNetworkDevice(), slot)).Ok?
              && ResolveSlot(Snapshot(TwoNetworks()), TargetOf(slot), "", SlotAt(AnyNetworkDevice(), slot)).Ok?
    ensures Drifts(OneNetwork(), TwoNetworks(), Network, "", One(None, None, Some(ANY_NETWORK)))
  {
    hide Select, Find;
    Selected();
    assert TwoNetworks()[0].id == "1" && OneNetwork()[0].id == "2";
  }

  const UNSELECTED: SlotValue := Many(None, None, Some(ANY_NETWORK))

  const NO_LIST: SlotValue := Many(None, None, None)

  /** A port of it is to exclude all networks. */
  function ExcludingDevice(): DeviceValue {
    var port := PortValue(None, None, UNSELECTED, NO_LIST, NO_SLOT, NO_SLOT, NO_LIST, NO_SLOT);
    DeviceValue("", NO_PARAMETERS.(portOverride := Some([port])), NO_PARAMETERS)
  }

  /** A list that drifts: it is filled while only one of the networks exists, and stays so. */
  lemma ListDrifts()
    ensures var d := ExcludingDevice();
            && Resolved(Snapshot(OneNetwork()), d).failedAt.None? && Resolved(Snapshot(TwoNetworks()), d).failedAt.None?
            && AfterAttempts([Snapshot(OneNetwork())], Snapshot(TwoNetworks()),
                             d) != Resolved(Snapshot(TwoNetworks()), d)
  {
    hide Resolve, ResolveSlot, Snapshot, Resolved, AfterAttempts, Drifts, OneNetwork, TwoNetworks;
    var d := ExcludingDevice();
    ExcludingSlots();
    DeviceSucceeds(Snapshot(OneNetwork()), d);
    DeviceSucceeds(Snapshot(TwoNetworks()), d);
    OneEarlyAttempt(OneNetwork(), TwoNetworks(), d);
    assert Order(d)[1] == PortSlot(ForProvider, ExcludedNetworkconfIds, 0);
    assert AnswersAt(OneNetwork(), d, 0);
    assert DriftsAt(OneNetwork(), TwoNetworks(), d, 1);
  }

  lemma ExcludingSlots()
    ensures forall slot :: HasSlot(ExcludingDevice(), slot) ==>
              && ResolveSlot(Snapshot(OneNetwork()), TargetOf(slot), "", SlotAt(ExcludingDevice(), slot)).Ok?
              && ResolveSlot(Snapshot(TwoNetworks()), TargetOf(slot), "", SlotAt(ExcludingDevice(), slot)).Ok?
    ensures Drifts(OneNetwork(), TwoNetworks(), Network, "", UNSELECTED)
  {
    hide Select, Find;
    Selected();
    assert |Ids(OneNetwork())| == 1 && |Ids(TwoNetworks())| == 2;
  }
}
