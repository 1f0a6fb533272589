/**
 What `Device.ResolveReferences` comes to on values: the guarantees of module Slots for the slots of a device,
 in the order of the generated code.
 */
module DeviceResolution {
  import opened Wrappers
  import opened Slots
  import opened References
  import opened RepeatedResolution
  import opened DeviceValues

  function TargetOf(slot: Slot): Kind {
    if slot.PortSlot? && slot.field.PortProfileID? then PortProfile else Network
  }

  function LabelOf(slot: Slot): Label {
    match slot
    case MgmtNetworkID(half) => MgmtLabel(half)
    case PortSlot(half, field, _) => PortLabel(half, field)
  }

  function Step(resolver: Resolver, namespace: string): Resolution<Slot, SlotValue, Error> {
    StepOf(resolver, namespace, TargetOf)
  }

  /** One call of `ResolveReferences`: the slots it leaves behind and where it stopped. */
  ghost function Resolved(resolver: Resolver, d: DeviceValue): Outcome<Slot, SlotValue, Error> {
    SlotsDomain(d);
    Resolve(Step(resolver, d.namespace), SlotsOf(d), Order(d))
  }

  /** The error a caller sees. */
  function WrappedError(r: Outcome<Slot, SlotValue, Error>): Option<(Label, Error)> {
    match r.failedAt
    case Some((slot, error)) => Some((LabelOf(slot), error))
    case None => None
  }

  /**
   If resolution fails, exactly the slots before the failing one in code order hold answers to their original
   contents, and the failing slot and all later ones are as they were; if it succeeds, every slot is answered.
   */
  lemma ExactPrefix(resolver: Resolver, d: DeviceValue) returns (n: nat)
    ensures n <= |Order(d)|
    ensures forall i :: 0 <= i < |Order(d)| ==> HasSlot(d, Order(d)[i]) && Order(d)[i] in Resolved(resolver, d).state
    ensures forall i :: 0 <= i < n ==>
              var slot := Order(d)[i];
              var to := if slot.PortSlot? && slot.field == PortProfileID then PortProfile else Network;
              var answer := ResolveSlot(resolver, to, d.namespace, SlotAt(d, slot));
              answer.Ok? && Resolved(resolver, d).state[slot] == answer.value
    ensures forall i :: n <= i < |Order(d)| ==> Resolved(resolver, d).state[Order(d)[i]] == SlotAt(d, Order(d)[i])
    ensures WrappedError(Resolved(resolver, d)).None? <==> n == |Order(d)|
    ensures n < |Order(d)| ==>
              var slot := Order(d)[n];
              var to := if slot.PortSlot? && slot.field == PortProfileID then PortProfile else Network;
              var answer := ResolveSlot(resolver, to, d.namespace, SlotAt(d, slot));
              var wrapping := if slot.MgmtNetworkID? then MgmtLabel(slot.half) else PortLabel(slot.half, slot.field);
              answer.Err? && WrappedError(Resolved(resolver, d)) == Some((wrapping, answer.error))
  {
    hide TargetOf, LabelOf, ResolveSlot, Order, Resolved, HasSlot, SlotAt, WrappedError;
    n := PrefixAnswered(resolver, d);
    forall slot: Slot
      ensures TargetOf(slot) == if slot.PortSlot? && slot.field == PortProfileID then PortProfile else Network
      ensures LabelOf(slot) == if slot.MgmtNetworkID? then MgmtLabel(slot.half) else PortLabel(slot.half, slot.field)
    {
      TargetIs(slot);
    }
  }

  /** What a slot refers to, and the label of its errors. */
  lemma TargetIs(slot: Slot)
    ensures TargetOf(slot) == if slot.PortSlot? && slot.field == PortProfileID then PortProfile else Network
    ensures LabelOf(slot) == if slot.MgmtNetworkID? then MgmtLabel(slot.half) else PortLabel(slot.half, slot.field)
  {
  }

  lemma PrefixAnswered(resolver: Resolver, d: DeviceValue) returns (n: nat)
    ensures n <= |Order(d)|
    ensures forall i :: 0 <= i < |Order(d)| ==> HasSlot(d, Order(d)[i]) && Order(d)[i] in Resolved(resolver, d).state
    ensures forall i :: 0 <= i < n ==>
              var slot := Order(d)[i];
              var answer := ResolveSlot(resolver, TargetOf(slot), d.namespace, SlotAt(d, slot));
              answer.Ok? && Resolved(resolver, d).state[slot] == answer.value
    ensures forall i :: n <= i < |Order(d)| ==> Resolved(resolver, d).state[Order(d)[i]] == SlotAt(d, Order(d)[i])
    ensures WrappedError(Resolved(resolver, d)).None? <==> n == |Order(d)|
    ensures n < |Order(d)| ==>
              var slot := Order(d)[n];
              var answer := ResolveSlot(resolver, TargetOf(slot), d.namespace, SlotAt(d, slot));
              answer.Err? && WrappedError(Resolved(resolver, d)) == Some((LabelOf(slot), answer.error))
  {
    SlotsDomain(d);
    var order, step := Order(d), Step(resolver, d.namespace);
    forall i | 0 <= i < |order| ensures HasSlot(d, order[i]) && order[i] in SlotsOf(d) { assert order[i] in order; }
    n := ResolveExact(step, SlotsOf(d), order);
    forall i | 0 <= i < n
      ensures ResolveSlot(resolver, TargetOf(order[i]), d.namespace, SlotAt(d, order[i])).Ok?
      ensures Resolved(resolver, d).state[order[i]]
              == ResolveSlot(resolver, TargetOf(order[i]), d.namespace, SlotAt(d, order[i])).value
    {
      assert Resolvable(step, SlotsOf(d), order[i]);
      assert order[..n][i] == order[i] && order[i] in Elements(order[..n]);
    }
    forall i | n <= i < |order| ensures Resolved(resolver, d).state[order[i]] == SlotAt(d, order[i]) {
      assert order[i] !in order[..n];
    }
  }

  /** A label tells everything about the failing slot but the index of its port. */
  lemma LabelsTell(s: Slot, t: Slot)
    ensures LabelOf(s) == LabelOf(t)
            <==> s == t || (s.PortSlot? && t.PortSlot? && s.half == t.half && s.field == t.field)
  {
  }

  /** When ForProvider fails, no slot of InitProvider is touched. */
  lemma {:induction false} ForProviderFirst(resolver: Resolver, d: DeviceValue, slot: Slot)
    requires HasSlot(d, slot) && slot.half.InitProvider?
    requires Resolved(resolver, d).failedAt.Some? && Resolved(resolver, d).failedAt.value.0.half.ForProvider?
    ensures slot in Resolved(resolver, d).state && Resolved(resolver, d).state[slot] == SlotAt(d, slot)
  {
    SlotsDomain(d);
    var n := ExactPrefix(resolver, d);
    var order := Order(d);
    var f := HalfOrder(ForProvider, |Ports(d.forProvider)|);
    if |f| <= n < |order| {
      LaterHalf(d, n);
    }
    var i :| 0 <= i < |order| && order[i] == slot;
    if i < |f| {
      HalfOnly(ForProvider, |Ports(d.forProvider)|, f[i]);
    }
  }

  lemma HalfOnly(half: Half, n: nat, s: Slot)
    requires s in HalfOrder(half, n)
    ensures s.half == half
  {
    AllFields(ExcludedNetworkconfIds);
    PhasesVisit(half, PHASES, n);
  }

  lemma LaterHalf(d: DeviceValue, k: nat)
    requires |HalfOrder(ForProvider, |Ports(d.forProvider)|)| <= k < |Order(d)|
    ensures Order(d)[k].half.InitProvider?
  {
    var g := HalfOrder(InitProvider, |Ports(d.initProvider)|);
    HalfOnly(InitProvider, |Ports(d.initProvider)|, g[k - |HalfOrder(ForProvider, |Ports(d.forProvider)|)|]);
  }

  /** The twelve per-field loops come to the same as one loop per half that resolves all six fields of each port. */
  lemma LoopsFuse(resolver: Resolver, d: DeviceValue)
    ensures var fused := PortMajorOrder(|Ports(d.forProvider)|, |Ports(d.initProvider)|);
            && Covers(SlotsOf(d), fused)
            && var one, other := Resolved(resolver, d), Resolve(Step(resolver, d.namespace), SlotsOf(d), fused);
               && (one.failedAt.None? <==> other.failedAt.None?)
               && (one.failedAt.None? ==> one.state == other.state)
  {
    SlotsDomain(d);
    var fused := PortMajorOrder(|Ports(d.forProvider)|, |Ports(d.initProvider)|);
    PortMajorVisits(|Ports(d.forProvider)|, |Ports(d.initProvider)|);
    CodeOrderVisits(|Ports(d.forProvider)|, |Ports(d.initProvider)|);
    assert Elements(Order(d)) == Elements(fused);
    OrderFree(Step(resolver, d.namespace), SlotsOf(d), Order(d), fused);
  }

  // ---- reconciling again and again ----

  /** The outcome of a call with `last` after calls with each of `attempts`, all on the same device. */
  ghost function AfterAttempts(attempts: seq<Resolver>, last: Resolver, d: DeviceValue)
    : Outcome<Slot, SlotValue, Error>
  {
    SlotsDomain(d);
    Resolve(Step(last, d.namespace), Attempts(StepsOf(attempts, d.namespace, TargetOf), SlotsOf(d), Order(d)), Order(d))
  }

  /** On the slots of this device the resolver fails or answers as `single` does, now and once the answer is stored. */
  ghost predicate StandsByAnswers(r: Resolver, single: Resolver, d: DeviceValue) {
    forall slot | HasSlot(d, slot) :: StandsBy(r, single, TargetOf(slot), d.namespace, SlotAt(d, slot))
  }

  /**
   Convergence: after any number of attempts that may each fail anywhere, one success leaves the device as a
   single successful call on the original device would have left it.
   */
  lemma DeviceConverges(attempts: seq<Resolver>, last: Resolver, single: Resolver, d: DeviceValue)
    requires forall r :: r in attempts + [last] ==> StandsByAnswers(r, single, d)
    requires Resolved(single, d).failedAt.None? && AfterAttempts(attempts, last, d).failedAt.None?
    ensures AfterAttempts(attempts, last, d).state == Resolved(single, d).state
  {
    SlotsDomain(d);
    forall r | r in attempts + [last] ensures StandsByAll(r, single, d.namespace, TargetOf, SlotsOf(d), Order(d)) {
      AllStandBy(r, single, d);
    }
    ReferencesConverge(attempts, last, single, d.namespace, TargetOf, SlotsOf(d), Order(d));
  }

  lemma AllStandBy(r: Resolver, single: Resolver, d: DeviceValue)
    requires StandsByAnswers(r, single, d)
    ensures StandsByAll(r, single, d.namespace, TargetOf, SlotsOf(d), Order(d))
  {
    hide StandsBy, Order;
    SlotsDomain(d);
  }
}
