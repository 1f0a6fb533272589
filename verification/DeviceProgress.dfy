/**
 How far a call of `Device.ResolveReferences` has come: after a prefix of the code order without an error, or
 stopped by one. Each statement of the generated code takes a device from one such state to the next.
 */
module DeviceProgress {
  import opened Wrappers
  import opened Slots
  import opened References
  import opened RepeatedResolution
  import opened DeviceValues
  import opened DeviceResolution

  ghost predicate Reached(resolver: Resolver, start: DeviceValue, done: seq<Slot>, current: DeviceValue) {
    && Covers(SlotsOf(start), done)
    && Resolve(Step(resolver, start.namespace), SlotsOf(start), done) == Outcome(SlotsOf(current), None)
    && RestOf(current) == RestOf(start)
  }

  ghost predicate Stopped(resolver: Resolver, start: DeviceValue, order: seq<Slot>, current: DeviceValue,
                          error: (Label, Error)) {
    && Covers(SlotsOf(start), order)
    && RestOf(current) == RestOf(start)
    && var r := Resolve(Step(resolver, start.namespace), SlotsOf(start), order);
       r.state == SlotsOf(current) && WrappedError(r) == Some(error)
  }

  // ---- prefixes of the code order ----

  /** The slots visited before loop `k` of a half begins. */
  function CodePrefix(d: DeviceValue, half: Half, k: nat): seq<Slot>
    requires k <= |PHASES|
  {
    (if half.ForProvider? then [] else HalfOrder(ForProvider, |Ports(d.forProvider)|))
    + ([MgmtNetworkID(half)] + Phases(half, PHASES[..k], |Ports(HalfOf(d, half))|))
  }

  lemma {:induction false} PhasesNext(half: Half, fields: seq<Field>, k: nat, n: nat)
    requires k < |fields|
    ensures Phases(half, fields[..k], n) + Phase(half, fields[k], n) == Phases(half, fields[..k + 1], n)
    ensures Phases(half, fields[..k], n) <= Phases(half, fields, n)
  {
    if k == 0 {
      assert fields[..1][1..] == [];
      assert Phases(half, fields[..1], n) == Phase(half, fields[0], n) + [];
    } else {
      PhasesNext(half, fields[1..], k - 1, n);
      assert fields[..k][1..] == fields[1..][..k - 1] && fields[..k + 1][1..] == fields[1..][..k];
    }
  }

  lemma PrefixNext(d: DeviceValue, half: Half, k: nat)
    requires k < |PHASES|
    ensures CodePrefix(d, half, k) + Phase(half, PHASES[k], |Ports(HalfOf(d, half))|) == CodePrefix(d, half, k + 1)
  {
    PhasesNext(half, PHASES, k, |Ports(HalfOf(d, half))|);
  }

  lemma PrefixOfOrder(d: DeviceValue, half: Half, k: nat)
    requires k <= |PHASES|
    ensures CodePrefix(d, half, k) <= Order(d)
  {
    if k < |PHASES| {
      PhasesNext(half, PHASES, k, |Ports(HalfOf(d, half))|);
    } else {
      assert PHASES[..k] == PHASES;
    }
  }

  lemma PrefixEnds(d: DeviceValue)
    ensures [MgmtNetworkID(ForProvider)] == CodePrefix(d, ForProvider, 0)
    ensures CodePrefix(d, ForProvider, |PHASES|) + [MgmtNetworkID(InitProvider)] == CodePrefix(d, InitProvider, 0)
    ensures CodePrefix(d, InitProvider, |PHASES|) == Order(d)
  {
    assert PHASES[..|PHASES|] == PHASES && PHASES[..0] == [];
  }

  // ---- one statement ----

  lemma SlotStep(resolver: Resolver, start: DeviceValue, done: seq<Slot>, current: DeviceValue, slot: Slot)
    requires Reached(resolver, start, done, current) && HasSlot(start, slot)
    ensures HasSlot(current, slot) && current.namespace == start.namespace
    ensures match ResolveSlot(resolver, TargetOf(slot), current.namespace, SlotAt(current, slot))
            case Ok(v) => Reached(resolver, start, done + [slot], WithSlot(current, slot, v))
            case Err(e) => Stopped(resolver, start, done + [slot], current, (LabelOf(slot), e))
  {
    hide Resolve, Phases, RestOfHalf;
    SlotsDomain(start);
    SlotsDomain(current);
    assert slot in SlotsOf(start) && SlotsOf(current).Keys == SlotsOf(start).Keys;
    assert SlotsOf(current)[slot] == SlotAt(current, slot);
    ResolveNext(Step(resolver, start.namespace), SlotsOf(start), done, slot);
    match ResolveSlot(resolver, TargetOf(slot), current.namespace, SlotAt(current, slot))
    case Ok(v) => WithSlotIs(current, slot, v);
    case Err(_) =>
  }

  lemma StoppedExtends(resolver: Resolver, start: DeviceValue, prefix: seq<Slot>, current: DeviceValue,
                       error: (Label, Error))
    requires Stopped(resolver, start, prefix, current, error) && prefix <= Order(start)
    ensures Stopped(resolver, start, Order(start), current, error)
  {
    SlotsDomain(start);
    ResolveStopped(Step(resolver, start.namespace), SlotsOf(start), prefix, Order(start));
  }

  /** One iteration of a loop over the port overrides. */
  lemma {:induction false} PortStep(resolver: Resolver, start: DeviceValue, half: Half, k: nat, i: nat,
                                    current: DeviceValue)
    requires k < |PHASES| && i < |Ports(HalfOf(start, half))|
    requires Reached(resolver, start, CodePrefix(start, half, k) + Phase(half, PHASES[k], i), current)
    ensures var slot := PortSlot(half, PHASES[k], i);
            && HasSlot(current, slot) && current.namespace == start.namespace
            && match ResolveSlot(resolver, TargetOf(slot), current.namespace, SlotAt(current, slot))
               case Ok(v) => Reached(resolver, start, CodePrefix(start, half, k) + Phase(half, PHASES[k], i + 1),
                                     WithSlot(current, slot, v))
               case Err(e) => Stopped(resolver, start, Order(start), current, (LabelOf(slot), e))
  {
    hide Reached, Stopped, CodePrefix, ResolveSlot, WithSlot, SlotAt;
    var slot, done := PortSlot(half, PHASES[k], i), CodePrefix(start, half, k);
    SlotStep(resolver, start, done + Phase(half, PHASES[k], i), current, slot);
    var n := |Ports(HalfOf(start, half))|;
    assert done + Phase(half, PHASES[k], i) + [slot] == done + Phase(half, PHASES[k], i + 1);
    PrefixNext(start, half, k);
    PrefixOfOrder(start, half, k + 1);
    assert Phase(half, PHASES[k], i + 1) <= Phase(half, PHASES[k], n);
    assert done + Phase(half, PHASES[k], i + 1) <= done + Phase(half, PHASES[k], n);
    match ResolveSlot(resolver, TargetOf(slot), current.namespace, SlotAt(current, slot))
    case Ok(_) =>
    case Err(e) => StoppedExtends(resolver, start, done + Phase(half, PHASES[k], i + 1), current, (LabelOf(slot), e));
  }

  /** The single slot before the loops of a half. */
  lemma {:induction false} MgmtStep(resolver: Resolver, start: DeviceValue, half: Half, current: DeviceValue)
    requires Reached(resolver, start, if half.ForProvider? then [] else CodePrefix(start, ForProvider, |PHASES|),
                     current)
    ensures var slot := MgmtNetworkID(half);
            && HasSlot(current, slot) && current.namespace == start.namespace
            && match ResolveSlot(resolver, TargetOf(slot), current.namespace, SlotAt(current, slot))
               case Ok(v) => Reached(resolver, start, CodePrefix(start, half, 0), WithSlot(current, slot, v))
               case Err(e) => Stopped(resolver, start, Order(start), current, (LabelOf(slot), e))
  {
    hide Reached, Stopped, CodePrefix, ResolveSlot, WithSlot, SlotAt;
    var slot := MgmtNetworkID(half);
    var done := if half.ForProvider? then [] else CodePrefix(start, ForProvider, |PHASES|);
    SlotStep(resolver, start, done, current, slot);
    PrefixEnds(start);
    assert done + [slot] == CodePrefix(start, half, 0);
    PrefixOfOrder(start, half, 0);
    match ResolveSlot(resolver, TargetOf(slot), current.namespace, SlotAt(current, slot))
    case Ok(_) =>
    case Err(e) => StoppedExtends(resolver, start, done + [slot], current, (LabelOf(slot), e));
  }

  lemma NothingDone(resolver: Resolver, d: DeviceValue)
    ensures Reached(resolver, d, [], d)
  {
  }

  /** A call that has gone through the whole order, with or without an error, is the specified one. */
  lemma CallDone(resolver: Resolver, start: DeviceValue, current: DeviceValue, error: Option<(Label, Error)>)
    requires match error
             case None => Reached(resolver, start, Order(start), current)
             case Some(e) => Stopped(resolver, start, Order(start), current, e)
    ensures SlotsOf(current) == Resolved(resolver, start).state && RestOf(current) == RestOf(start)
    ensures error == WrappedError(Resolved(resolver, start))
  {
  }

  /** The rest of a device fixes how many port overrides each half has. */
  lemma SamePorts(resolver: Resolver, start: DeviceValue, done: seq<Slot>, current: DeviceValue, half: Half)
    requires Reached(resolver, start, done, current)
    ensures |Ports(HalfOf(current, half))| == |Ports(HalfOf(start, half))|
  {
    RestDetermines(current.forProvider, start.forProvider);
    RestDetermines(current.initProvider, start.initProvider);
  }

  // ---- one call after another ----

  lemma OneAttempt(last: Resolver, d: DeviceValue)
    ensures AfterAttempts([], last, d) == Resolved(last, d)
  {
    assert StepsOf([], d.namespace, TargetOf) == [];
  }

  /** What the first attempt leaves is where the remaining ones start. */
  lemma {:induction false} FirstAttempt(attempts: seq<Resolver>, last: Resolver, d: DeviceValue, e: DeviceValue)
    requires attempts != [] && SlotsOf(e) == Resolved(attempts[0], d).state && RestOf(e) == RestOf(d)
    ensures AfterAttempts(attempts, last, d) == AfterAttempts(attempts[1..], last, e)
  {
    hide Resolve, RestOfHalf, CodeOrder;
    RestDetermines(d.forProvider, e.forProvider);
    RestDetermines(d.initProvider, e.initProvider);
    assert Order(d) == Order(e) && d.namespace == e.namespace;
    SlotsDomain(d);
    var steps := StepsOf(attempts, d.namespace, TargetOf);
    assert steps[0] == Step(attempts[0], d.namespace);
    assert steps[1..] == StepsOf(attempts[1..], d.namespace, TargetOf);
  }
}
