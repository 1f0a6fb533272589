/**
 A Device as a value: the slots that `ResolveReferences` fills, in the order the generated code visits them, and
 everything else.
 */
module DeviceValues {
  import opened Wrappers
  import opened Slots
  import opened References

  datatype Half = ForProvider | InitProvider

  datatype Field =
    | ExcludedNetworkconfIds
    | MulticastRouterNetworkconfIds
    | NativeNetworkconfID
    | PortProfileID
    | TaggedNetworkconfIds
    | VoiceNetworkconfID

  datatype Slot = MgmtNetworkID(half: Half) | PortSlot(half: Half, field: Field, index: nat)

  /** What an error is wrapped with: the loop it comes from, but not the index. */
  datatype Label = MgmtLabel(half: Half) | PortLabel(half: Half, field: Field)

  datatype PortValue = PortValue(
    aggregateMembers: Option<seq<Option<real>>>, autoneg: Option<bool>,
    excluded: SlotValue, multicastRouter: SlotValue, native: SlotValue,
    portProfile: SlotValue, tagged: SlotValue, voice: SlotValue)

  datatype ConfigNetworkValue = ConfigNetworkValue(bondingEnabled: Option<bool>, gateway: Option<string>)

  datatype ParametersValue = ParametersValue(
    configNetwork: Option<ConfigNetworkValue>, mgmtNetwork: SlotValue, name: Option<string>,
    portOverride: Option<seq<PortValue>>)

  datatype DeviceValue = DeviceValue(namespace: string, forProvider: ParametersValue, initProvider: ParametersValue)

  // ---- the order of the generated code ----

  /** The six loops of one half, in their order. */
  const PHASES: seq<Field> := [ExcludedNetworkconfIds, MulticastRouterNetworkconfIds, NativeNetworkconfID,
                               PortProfileID, TaggedNetworkconfIds, VoiceNetworkconfID]

  /** One loop: the same field of every port override. */
  function Phase(half: Half, field: Field, n: nat): seq<Slot> {
    seq(n, (i: nat) => PortSlot(half, field, i))
  }

  function Phases(half: Half, fields: seq<Field>, n: nat): seq<Slot> {
    if fields == [] then [] else Phase(half, fields[0], n) + Phases(half, fields[1..], n)
  }

  function HalfOrder(half: Half, n: nat): seq<Slot> {
    [MgmtNetworkID(half)] + Phases(half, PHASES, n)
  }

  function CodeOrder(forPorts: nat, initPorts: nat): seq<Slot> {
    HalfOrder(ForProvider, forPorts) + HalfOrder(InitProvider, initPorts)
  }

  // ---- the order of a single loop per half ----

  /** All six fields of one port override. */
  function Row(half: Half, fields: seq<Field>, i: nat): seq<Slot> {
    seq(|fields|, (k: nat) requires k < |fields| => PortSlot(half, fields[k], i))
  }

  function Rows(half: Half, fields: seq<Field>, n: nat): seq<Slot> {
    if n == 0 then [] else Rows(half, fields, n - 1) + Row(half, fields, n - 1)
  }

  function PortMajorOrder(forPorts: nat, initPorts: nat): seq<Slot> {
    ([MgmtNetworkID(ForProvider)] + Rows(ForProvider, PHASES, forPorts))
    + ([MgmtNetworkID(InitProvider)] + Rows(InitProvider, PHASES, initPorts))
  }

  // ---- what the orders visit ----

  /** Port slots of one half with one of the given fields. */
  predicate InBlock(slot: Slot, half: Half, fields: seq<Field>, n: nat) {
    slot.PortSlot? && slot.half == half && slot.field in fields && slot.index < n
  }

  predicate InDevice(slot: Slot, forPorts: nat, initPorts: nat) {
    slot.PortSlot? ==> slot.index < if slot.half.ForProvider? then forPorts else initPorts
  }

  lemma NoRepeatsConcat<T>(a: seq<T>, b: seq<T>)
    requires NoRepeats(a) && NoRepeats(b) && forall x :: x in a ==> x !in b
    ensures NoRepeats(a + b)
  {
    forall i, j | 0 <= i < j < |a + b| ensures (a + b)[i] != (a + b)[j] {
      if i < |a| <= j { assert (a + b)[i] in a && (a + b)[j] in b; }
    }
  }

  lemma PhaseVisits(half: Half, field: Field, n: nat)
    ensures NoRepeats(Phase(half, field, n))
    ensures forall s :: s in Phase(half, field, n) <==> s.PortSlot? && s.half == half && s.field == field && s.index < n
  {
    forall s: Slot | s.PortSlot? && s.half == half && s.field == field && s.index < n
        ensures s in Phase(half, field, n) {
      assert Phase(half, field, n)[s.index] == s;
    }
  }

  lemma {:induction false} PhasesVisit(half: Half, fields: seq<Field>, n: nat)
    requires NoRepeats(fields)
    ensures NoRepeats(Phases(half, fields, n))
    ensures forall s :: s in Phases(half, fields, n) <==> InBlock(s, half, fields, n)
  {
    if fields != [] {
      PhaseVisits(half, fields[0], n);
      PhasesVisit(half, fields[1..], n);
      assert fields[0] !in fields[1..];
      NoRepeatsConcat(Phase(half, fields[0], n), Phases(half, fields[1..], n));
      assert forall f :: f in fields <==> f == fields[0] || f in fields[1..];
    }
  }

  lemma RowVisits(half: Half, fields: seq<Field>, i: nat)
    requires NoRepeats(fields)
    ensures NoRepeats(Row(half, fields, i))
    ensures forall s :: s in Row(half, fields, i)
              <==> s.PortSlot? && s.half == half && s.field in fields && s.index == i
  {
    forall s: Slot | s.PortSlot? && s.half == half && s.field in fields && s.index == i
        ensures s in Row(half, fields, i) {
      var k :| 0 <= k < |fields| && fields[k] == s.field;
      assert Row(half, fields, i)[k] == s;
    }
  }

  lemma {:induction false} RowsVisit(half: Half, fields: seq<Field>, n: nat)
    requires NoRepeats(fields)
    ensures NoRepeats(Rows(half, fields, n))
    ensures forall s :: s in Rows(half, fields, n) <==> InBlock(s, half, fields, n)
  {
    if n != 0 {
      RowsVisit(half, fields, n - 1);
      RowVisits(half, fields, n - 1);
      NoRepeatsConcat(Rows(half, fields, n - 1), Row(half, fields, n - 1));
    }
  }

  lemma AllFields(field: Field)
    ensures NoRepeats(PHASES) && field in PHASES
  {
    var k := match field
      case ExcludedNetworkconfIds => 0
      case MulticastRouterNetworkconfIds => 1
      case NativeNetworkconfID => 2
      case PortProfileID => 3
      case TaggedNetworkconfIds => 4
      case VoiceNetworkconfID => 5;
    assert PHASES[k] == field;
  }

  /** A management slot and a block of port slots, for both halves. */
  lemma TwoHalves(a: seq<Slot>, b: seq<Slot>, forPorts: nat, initPorts: nat)
    requires NoRepeats(a) && forall s :: s in a <==> InBlock(s, ForProvider, PHASES, forPorts)
    requires NoRepeats(b) && forall s :: s in b <==> InBlock(s, InitProvider, PHASES, initPorts)
    ensures var order := ([MgmtNetworkID(ForProvider)] + a) + ([MgmtNetworkID(InitProvider)] + b);
            NoRepeats(order) && forall s :: s in order <==> InDevice(s, forPorts, initPorts)
  {
    NoRepeatsConcat([MgmtNetworkID(ForProvider)], a);
    NoRepeatsConcat([MgmtNetworkID(InitProvider)], b);
    NoRepeatsConcat([MgmtNetworkID(ForProvider)] + a, [MgmtNetworkID(InitProvider)] + b);
    var order := ([MgmtNetworkID(ForProvider)] + a) + ([MgmtNetworkID(InitProvider)] + b);
    assert order[0] == MgmtNetworkID(ForProvider) && order[1 + |a|] == MgmtNetworkID(InitProvider);
    forall s | InDevice(s, forPorts, initPorts) ensures s in order {
      match s
      case MgmtNetworkID(half) =>
        assert s == order[if half.ForProvider? then 0 else 1 + |a|];
      case PortSlot(half, field, _) =>
        AllFields(field);
        assert if half.ForProvider? then s in a else s in b;
    }
  }

  /** The generated code visits every slot of the device exactly once. */
  lemma CodeOrderVisits(forPorts: nat, initPorts: nat)
    ensures NoRepeats(CodeOrder(forPorts, initPorts))
    ensures forall s :: s in CodeOrder(forPorts, initPorts) <==> InDevice(s, forPorts, initPorts)
  {
    AllFields(ExcludedNetworkconfIds);
    PhasesVisit(ForProvider, PHASES, forPorts);
    PhasesVisit(InitProvider, PHASES, initPorts);
    TwoHalves(Phases(ForProvider, PHASES, forPorts), Phases(InitProvider, PHASES, initPorts), forPorts, initPorts);
  }

  lemma PortMajorVisits(forPorts: nat, initPorts: nat)
    ensures NoRepeats(PortMajorOrder(forPorts, initPorts))
    ensures forall s :: s in PortMajorOrder(forPorts, initPorts) <==> InDevice(s, forPorts, initPorts)
  {
    AllFields(ExcludedNetworkconfIds);
    RowsVisit(ForProvider, PHASES, forPorts);
    RowsVisit(InitProvider, PHASES, initPorts);
    TwoHalves(Rows(ForProvider, PHASES, forPorts), Rows(InitProvider, PHASES, initPorts), forPorts, initPorts);
  }

  /** The order of the generated code in so many words: for each half the management network, then loop after loop. */
  lemma CodeOrderIs(n: nat, m: nat)
    ensures CodeOrder(n, m) == [MgmtNetworkID(ForProvider)] + SixLoops(ForProvider, n)
                               + [MgmtNetworkID(InitProvider)] + SixLoops(InitProvider, m)
  {
    SixLoopsAre(ForProvider, n);
    SixLoopsAre(InitProvider, m);
  }

  function SixLoops(half: Half, n: nat): seq<Slot> {
    Phase(half, ExcludedNetworkconfIds, n) + Phase(half, MulticastRouterNetworkconfIds, n)
    + Phase(half, NativeNetworkconfID, n) + Phase(half, PortProfileID, n)
    + Phase(half, TaggedNetworkconfIds, n) + Phase(half, VoiceNetworkconfID, n)
  }

  lemma PhaseIs(half: Half, field: Field, n: nat)
    ensures |Phase(half, field, n)| == n
    ensures forall i: nat :: i < n ==> Phase(half, field, n)[i] == PortSlot(half, field, i)
  {
  }

  lemma SixLoopsAre(half: Half, n: nat)
    ensures Phases(half, PHASES, n) == SixLoops(half, n)
  {
    hide Phase;
    PhasesFrom(half, n, 5);
    PhasesFrom(half, n, 4);
    PhasesFrom(half, n, 3);
    PhasesFrom(half, n, 2);
    PhasesFrom(half, n, 1);
    PhasesFrom(half, n, 0);
    assert PHASES[6..] == [] && PHASES[0..] == PHASES;
  }

  lemma PhasesFrom(half: Half, n: nat, k: nat)
    requires k < 6
    ensures Phases(half, PHASES[k..], n) == Phase(half, PHASES[k], n) + Phases(half, PHASES[k + 1..], n)
  {
    assert PHASES[k..][1..] == PHASES[k + 1..];
  }

  /** The order of a single loop: all six fields of a port before the next port. */
  lemma PortMajorIs(n: nat, m: nat, i: nat)
    ensures |PortMajorOrder(n, m)| == 2 + 6 * n + 6 * m
    ensures PortMajorOrder(n, m)[0] == MgmtNetworkID(ForProvider)
    ensures PortMajorOrder(n, m)[1 + 6 * n] == MgmtNetworkID(InitProvider)
    ensures i < n ==> PortMajorOrder(n, m)[1 + 6 * i..7 + 6 * i] == AllOfPort(ForProvider, i)
    ensures i < m ==> PortMajorOrder(n, m)[2 + 6 * n + 6 * i..8 + 6 * n + 6 * i] == AllOfPort(InitProvider, i)
  {
    RowsAre(ForProvider, n, i);
    RowsAre(InitProvider, m, i);
    var f, g := Rows(ForProvider, PHASES, n), Rows(InitProvider, PHASES, m);
    var order := PortMajorOrder(n, m);
    assert order == [MgmtNetworkID(ForProvider)] + f + [MgmtNetworkID(InitProvider)] + g;
    if i < n {
      assert order[1 + 6 * i..7 + 6 * i] == f[6 * i..6 * i + 6];
    }
    if i < m {
      assert order[2 + 6 * n + 6 * i..8 + 6 * n + 6 * i] == g[6 * i..6 * i + 6];
    }
  }

  function AllOfPort(half: Half, i: nat): seq<Slot> {
    [PortSlot(half, ExcludedNetworkconfIds, i), PortSlot(half, MulticastRouterNetworkconfIds, i),
     PortSlot(half, NativeNetworkconfID, i), PortSlot(half, PortProfileID, i),
     PortSlot(half, TaggedNetworkconfIds, i), PortSlot(half, VoiceNetworkconfID, i)]
  }

  lemma {:induction false} RowsAre(half: Half, n: nat, i: nat)
    ensures |Rows(half, PHASES, n)| == 6 * n
    ensures i < n ==> Rows(half, PHASES, n)[6 * i..6 * i + 6] == AllOfPort(half, i)
  {
    if n != 0 {
      RowsAre(half, n - 1, i);
      assert Row(half, PHASES, n - 1) == AllOfPort(half, n - 1);
      var before := Rows(half, PHASES, n - 1);
      if i == n - 1 {
        assert Rows(half, PHASES, n)[6 * i..6 * i + 6] == Row(half, PHASES, i);
      } else if i < n - 1 {
        assert Rows(half, PHASES, n)[6 * i..6 * i + 6] == before[6 * i..6 * i + 6];
      }
    }
  }

  // ---- slots of a device value ----

  function Ports(p: ParametersValue): seq<PortValue> {
    match p.portOverride case Some(ports) => ports case None => []
  }

  function HalfOf(d: DeviceValue, half: Half): ParametersValue {
    if half.ForProvider? then d.forProvider else d.initProvider
  }

  function PortField(port: PortValue, field: Field): SlotValue {
    match field
    case ExcludedNetworkconfIds => port.excluded
    case MulticastRouterNetworkconfIds => port.multicastRouter
    case NativeNetworkconfID => port.native
    case PortProfileID => port.portProfile
    case TaggedNetworkconfIds => port.tagged
    case VoiceNetworkconfID => port.voice
  }

  function WithPortField(port: PortValue, field: Field, v: SlotValue): PortValue {
    match field
    case ExcludedNetworkconfIds => port.(excluded := v)
    case MulticastRouterNetworkconfIds => port.(multicastRouter := v)
    case NativeNetworkconfID => port.(native := v)
    case PortProfileID => port.(portProfile := v)
    case TaggedNetworkconfIds => port.(tagged := v)
    case VoiceNetworkconfID => port.(voice := v)
  }

  predicate HasSlot(d: DeviceValue, slot: Slot) {
    InDevice(slot, |Ports(d.forProvider)|, |Ports(d.initProvider)|)
  }

  function SlotAt(d: DeviceValue, slot: Slot): SlotValue
    requires HasSlot(d, slot)
  {
    match slot
    case MgmtNetworkID(half) => HalfOf(d, half).mgmtNetwork
    case PortSlot(half, field, i) => PortField(Ports(HalfOf(d, half))[i], field)
  }

  function WithHalf(d: DeviceValue, half: Half, p: ParametersValue): DeviceValue {
    if half.ForProvider? then d.(forProvider := p) else d.(initProvider := p)
  }

  function WithSlot(d: DeviceValue, slot: Slot, v: SlotValue): DeviceValue
    requires HasSlot(d, slot)
  {
    var p := HalfOf(d, slot.half);
    match slot
    case MgmtNetworkID(half) => WithHalf(d, half, p.(mgmtNetwork := v))
    case PortSlot(half, field, i) =>
      var ports := p.portOverride.value;
      WithHalf(d, half, p.(portOverride := Some(ports[i := WithPortField(ports[i], field, v)])))
  }

  function Order(d: DeviceValue): seq<Slot> {
    CodeOrder(|Ports(d.forProvider)|, |Ports(d.initProvider)|)
  }

  function SlotsOf(d: DeviceValue): map<Slot, SlotValue> {
    map s | s in Order(d) && HasSlot(d, s) :: SlotAt(d, s)
  }

  const NO_SLOT: SlotValue := One(None, None, None)

  function RestOfPort(port: PortValue): PortValue {
    PortValue(port.aggregateMembers, port.autoneg, NO_SLOT, NO_SLOT, NO_SLOT, NO_SLOT, NO_SLOT, NO_SLOT)
  }

  function RestOfHalf(p: ParametersValue): ParametersValue {
    p.(mgmtNetwork := NO_SLOT,
       portOverride := match p.portOverride
         case None => None
         case Some(ports) => Some(seq(|ports|, i requires 0 <= i < |ports| => RestOfPort(ports[i]))))
  }

  /** Everything but the slots: nil lists, lengths and all other fields. */
  function RestOf(d: DeviceValue): DeviceValue {
    DeviceValue(d.namespace, RestOfHalf(d.forProvider), RestOfHalf(d.initProvider))
  }

  lemma SlotsDomain(d: DeviceValue)
    ensures forall s :: s in SlotsOf(d) <==> HasSlot(d, s)
    ensures forall s :: s in Order(d) <==> s in SlotsOf(d)
    ensures NoRepeats(Order(d)) && Covers(SlotsOf(d), Order(d))
  {
    CodeOrderVisits(|Ports(d.forProvider)|, |Ports(d.initProvider)|);
  }

  /** Which part of a device each slot is. */
  lemma SlotsAre(d: DeviceValue, half: Half, i: nat)
    ensures HasSlot(d, MgmtNetworkID(half))
    ensures SlotAt(d, MgmtNetworkID(ForProvider)) == d.forProvider.mgmtNetwork
    ensures SlotAt(d, MgmtNetworkID(InitProvider)) == d.initProvider.mgmtNetwork
    ensures var p := if half == ForProvider then d.forProvider else d.initProvider;
            var ports := if p.portOverride == None then [] else p.portOverride.value;
            && (forall field :: HasSlot(d, PortSlot(half, field, i)) <==> i < |ports|)
            && (i < |ports| ==>
                  && SlotAt(d, PortSlot(half, ExcludedNetworkconfIds, i)) == ports[i].excluded
                  && SlotAt(d, PortSlot(half, MulticastRouterNetworkconfIds, i)) == ports[i].multicastRouter
                  && SlotAt(d, PortSlot(half, NativeNetworkconfID, i)) == ports[i].native
                  && SlotAt(d, PortSlot(half, PortProfileID, i)) == ports[i].portProfile
                  && SlotAt(d, PortSlot(half, TaggedNetworkconfIds, i)) == ports[i].tagged
                  && SlotAt(d, PortSlot(half, VoiceNetworkconfID, i)) == ports[i].voice)
  {
  }

  /** Writing one slot changes that slot and nothing else. */
  lemma WithSlotIs(d: DeviceValue, slot: Slot, v: SlotValue)
    requires HasSlot(d, slot)
    ensures SlotsOf(WithSlot(d, slot, v)) == SlotsOf(d)[slot := v]
    ensures RestOf(WithSlot(d, slot, v)) == RestOf(d)
  {
    var e := WithSlot(d, slot, v);
    SlotsDomain(d);
    SlotsDomain(e);
    SameShape(d, slot, v);
    var a, b := SlotsOf(e), SlotsOf(d)[slot := v];
    assert a.Keys == b.Keys;
    forall s | s in a ensures a[s] == b[s] {
      SlotWritten(d, slot, v, s);
    }
    assert a == b;
    RestKept(d, slot, v);
  }

  lemma SameShape(d: DeviceValue, slot: Slot, v: SlotValue)
    requires HasSlot(d, slot)
    ensures |Ports(WithSlot(d, slot, v).forProvider)| == |Ports(d.forProvider)|
    ensures |Ports(WithSlot(d, slot, v).initProvider)| == |Ports(d.initProvider)|
  {
  }

  lemma SlotWritten(d: DeviceValue, slot: Slot, v: SlotValue, s: Slot)
    requires HasSlot(d, slot) && HasSlot(d, s)
    ensures HasSlot(WithSlot(d, slot, v), s)
    ensures SlotAt(WithSlot(d, slot, v), s) == if s == slot then v else SlotAt(d, s)
  {
    SameShape(d, slot, v);
  }

  lemma RestKept(d: DeviceValue, slot: Slot, v: SlotValue)
    requires HasSlot(d, slot)
    ensures RestOf(WithSlot(d, slot, v)) == RestOf(d)
  {
    var p, q := HalfOf(d, slot.half), HalfOf(WithSlot(d, slot, v), slot.half);
    if slot.PortSlot? {
      assert RestOfHalf(q).portOverride.value == RestOfHalf(p).portOverride.value;
    }
  }

  /** The slots and the rest make up the whole device. */
  lemma DeviceDetermined(d: DeviceValue, e: DeviceValue)
    requires SlotsOf(d) == SlotsOf(e) && RestOf(d) == RestOf(e)
    ensures d == e
  {
    SlotsDomain(d);
    HalfDetermined(d, e, ForProvider);
    HalfDetermined(d, e, InitProvider);
  }

  lemma HalfDetermined(d: DeviceValue, e: DeviceValue, half: Half)
    requires SlotsOf(d) == SlotsOf(e) && RestOf(d) == RestOf(e)
    ensures HalfOf(d, half) == HalfOf(e, half)
  {
    var p, q := HalfOf(d, half), HalfOf(e, half);
    RestDetermines(p, q);
    SameSlot(d, e, MgmtNetworkID(half));
    var a, b := Ports(p), Ports(q);
    forall i | 0 <= i < |a| ensures a[i] == b[i] {
      forall field: Field ensures PortField(a[i], field) == PortField(b[i], field) {
        SameSlot(d, e, PortSlot(half, field, i));
      }
      PortDetermined(a[i], b[i]);
    }
    assert a == b;
  }

  lemma SameSlot(d: DeviceValue, e: DeviceValue, slot: Slot)
    requires SlotsOf(d) == SlotsOf(e) && HasSlot(d, slot)
    ensures HasSlot(e, slot) && SlotAt(d, slot) == SlotAt(e, slot)
  {
    SlotsDomain(d);
    SlotsDomain(e);
    assert slot in SlotsOf(d) && slot in SlotsOf(e);
    assert SlotsOf(d)[slot] == SlotAt(d, slot) && SlotsOf(e)[slot] == SlotAt(e, slot);
  }

  lemma RestDetermines(p: ParametersValue, q: ParametersValue)
    requires RestOfHalf(p) == RestOfHalf(q)
    ensures p.configNetwork == q.configNetwork && p.name == q.name
    ensures p.portOverride.Some? <==> q.portOverride.Some?
    ensures |Ports(p)| == |Ports(q)|
    ensures forall i :: 0 <= i < |Ports(p)| ==> RestOfPort(Ports(p)[i]) == RestOfPort(Ports(q)[i])
  {
    if p.portOverride.Some? {
      var a, b := RestOfHalf(p).portOverride.value, RestOfHalf(q).portOverride.value;
      assert |a| == |Ports(p)| && |b| == |Ports(q)|;
      assert forall i :: 0 <= i < |a| ==> a[i] == RestOfPort(Ports(p)[i]) && b[i] == RestOfPort(Ports(q)[i]);
    }
  }

  lemma PortDetermined(a: PortValue, b: PortValue)
    requires RestOfPort(a) == RestOfPort(b)
    requires forall field: Field :: PortField(a, field) == PortField(b, field)
    ensures a == b
  {
    assert PortField(a, ExcludedNetworkconfIds) == PortField(b, ExcludedNetworkconfIds);
    assert PortField(a, MulticastRouterNetworkconfIds) == PortField(b, MulticastRouterNetworkconfIds);
    assert PortField(a, NativeNetworkconfID) == PortField(b, NativeNetworkconfID);
    assert PortField(a, PortProfileID) == PortField(b, PortProfileID);
    assert PortField(a, TaggedNetworkconfIds) == PortField(b, TaggedNetworkconfIds);
    assert PortField(a, VoiceNetworkconfID) == PortField(b, VoiceNetworkconfID);
  }
}
