/**
 The structures of a Device on the heap, one field of each shape: scalar pointers, a pointer to a struct, slices
 of pointers, slices of values and a slice of structs with slices of their own.
 */
module DeviceMemory {
  import opened Wrappers
  import opened DeviceValues
  import opened Memory
  import opened SlotMemory

  datatype PortOverride = PortOverride(
    aggregateMembers: Slice?<Cell?<real>>, autoneg: Cell?<bool>,
    excluded: MultiSlot, multicastRouter: MultiSlot, native: SingleSlot,
    portProfile: SingleSlot, tagged: MultiSlot, voice: SingleSlot)

  datatype ConfigNetwork = ConfigNetwork(bondingEnabled: Cell?<bool>, gateway: Cell?<string>)

  datatype Parameters = Parameters(
    configNetwork: Cell?<ConfigNetwork>, mgmtNetwork: SingleSlot, name: Cell?<string>,
    portOverride: array?<PortOverride>)  // written in place by the resolver

  // ---- values ----

  function PortView(p: PortOverride): PortValue {
    PortValue(ListValue(p.aggregateMembers), Deref(p.autoneg), MultiView(p.excluded), MultiView(p.multicastRouter),
              SingleView(p.native), SingleView(p.portProfile), MultiView(p.tagged), SingleView(p.voice))
  }

  function PortsView(s: seq<PortOverride>): seq<PortValue> {
    seq(|s|, i requires 0 <= i < |s| => PortView(s[i]))
  }

  function ConfigView(c: Cell?<ConfigNetwork>): Option<ConfigNetworkValue> {
    if c == null then None else Some(ConfigNetworkValue(Deref(c.value.bondingEnabled), Deref(c.value.gateway)))
  }

  function PortListView(a: array?<PortOverride>): Option<seq<PortValue>>
    reads a
  {
    if a == null then None else Some(PortsView(a[..]))
  }

  function ParametersView(p: Parameters): ParametersValue
    reads p.portOverride
  {
    ParametersValue(ConfigView(p.configNetwork), SingleView(p.mgmtNetwork), Deref(p.name), PortListView(p.portOverride))
  }

  // ---- every pointer, slot by slot ----

  function ListedPointers(p: PortOverride): Targets {
    ListPointers(p.aggregateMembers) + Pointer(p.autoneg) + MultiPointers(p.excluded) + MultiPointers(p.multicastRouter)
  }

  function ProfiledPointers(p: PortOverride): Targets {
    SinglePointers(p.native) + SinglePointers(p.portProfile) + MultiPointers(p.tagged) + SinglePointers(p.voice)
  }

  function PortPointers(p: PortOverride): Targets {
    ListedPointers(p) + ProfiledPointers(p)
  }

  function PortsPointers(s: seq<PortOverride>): Targets {
    if s == [] then multiset{} else PortsPointers(s[..|s| - 1]) + PortPointers(s[|s| - 1])
  }

  function PortListPointers(a: array?<PortOverride>): Targets
    reads a
  {
    if a == null then multiset{} else multiset{a as object} + PortsPointers(a[..])
  }

  function ConfigPointers(c: Cell?<ConfigNetwork>): Targets {
    if c == null then multiset{} else multiset{c as object} + Pointer(c.value.bondingEnabled) + Pointer(c.value.gateway)
  }

  function ParametersPointers(p: Parameters): Targets
    reads p.portOverride
  {
    ConfigPointers(p.configNetwork) + SinglePointers(p.mgmtNetwork) + Pointer(p.name) + PortListPointers(p.portOverride)
  }

  /** A slice of port overrides is among the targets of its structure. */
  lemma PortsAmongPointers(p: Parameters)
    ensures p.portOverride != null ==> p.portOverride in ParametersPointers(p)
  {
  }

  // ---- what values and targets say ----

  /** Every field of a port override is seen in its value, under its own name, and its pointers among the targets. */
  lemma PortIs(p: PortOverride)
    ensures PortView(p).aggregateMembers == ListValue(p.aggregateMembers) && PortView(p).autoneg == Deref(p.autoneg)
    ensures PortView(p).excluded == MultiView(p.excluded) && PortView(p).multicastRouter == MultiView(p.multicastRouter)
    ensures PortView(p).native == SingleView(p.native) && PortView(p).portProfile == SingleView(p.portProfile)
    ensures PortView(p).tagged == MultiView(p.tagged) && PortView(p).voice == SingleView(p.voice)
    ensures PortPointers(p) == ListPointers(p.aggregateMembers) + Pointer(p.autoneg) + MultiPointers(p.excluded)
                               + MultiPointers(p.multicastRouter) + SinglePointers(p.native)
                               + SinglePointers(p.portProfile) + MultiPointers(p.tagged) + SinglePointers(p.voice)
  {
    hide ListValue, Deref, MultiView, SingleView, ListPointers, Pointer, MultiPointers, SinglePointers;
  }

  lemma ConfigIs(c: Cell?<ConfigNetwork>)
    ensures ConfigView(c) == None <==> c == null
    ensures c != null ==> ConfigView(c).value.bondingEnabled == Deref(c.value.bondingEnabled)
    ensures c != null ==> ConfigView(c).value.gateway == Deref(c.value.gateway)
    ensures c != null ==>
              ConfigPointers(c) == multiset{c as object} + Pointer(c.value.bondingEnabled) + Pointer(c.value.gateway)
  {
  }

  lemma ParametersAre(p: Parameters)
    ensures ParametersView(p).configNetwork == ConfigView(p.configNetwork) && ParametersView(p).name == Deref(p.name)
    ensures ParametersView(p).mgmtNetwork == SingleView(p.mgmtNetwork)
    ensures ParametersView(p).portOverride == None <==> p.portOverride == null
    ensures p.portOverride != null ==>
              && |ParametersView(p).portOverride.value| == p.portOverride.Length
              && forall i :: 0 <= i < p.portOverride.Length ==>
                   ParametersView(p).portOverride.value[i] == PortView(p.portOverride[i])
    ensures ParametersPointers(p) == ConfigPointers(p.configNetwork) + SinglePointers(p.mgmtNetwork) + Pointer(p.name)
                                     + if p.portOverride == null then multiset{}
                                       else multiset{p.portOverride as object} + PortsPointers(p.portOverride[..])
  {
    hide ConfigView, Deref, SingleView, PortView, ConfigPointers, SinglePointers, Pointer, PortsPointers;
  }

  lemma {:induction false} PortsHold(s: seq<PortOverride>, i: nat, j: nat)
    requires i < |s| && j < |s|
    ensures PortPointers(s[i]) <= PortsPointers(s)
    ensures i != j ==> PortPointers(s[i]) + PortPointers(s[j]) <= PortsPointers(s)
    decreases |s|
  {
    hide PortPointers;
    var init := s[..|s| - 1];
    if i < |init| && j < |init| {
      PortsHold(init, i, j);
    } else if i < |init| {
      PortsHold(init, i, i);
    } else if j < |init| {
      PortsHold(init, j, j);
    }
  }

  /** In an unshared structure no two port overrides lead to the same object. */
  lemma PortsApart(s: seq<PortOverride>, i: nat, j: nat)
    requires i < j < |s| && Unshared(PortsPointers(s))
    ensures forall o :: o in PortPointers(s[i]) ==> o !in PortPointers(s[j])
  {
    hide PortPointers, PortsPointers;
    PortsHold(s, i, j);
    forall o | o in PortPointers(s[i]) ensures o !in PortPointers(s[j]) {
      assert PortsPointers(s)[o] >= (PortPointers(s[i]) + PortPointers(s[j]))[o];
    }
  }

  predicate AlikeConfigs(c: Cell?<ConfigNetwork>, e: Cell?<ConfigNetwork>) {
    if c == null || e == null then c == null && e == null
    else AlikeCells(c.value.bondingEnabled, e.value.bondingEnabled) && AlikeCells(c.value.gateway, e.value.gateway)
  }

  predicate AlikePorts(p: PortOverride, q: PortOverride) {
    && AlikeLists(p.aggregateMembers, q.aggregateMembers) && AlikeCells(p.autoneg, q.autoneg)
    && AlikeMulti(p.excluded, q.excluded) && AlikeMulti(p.multicastRouter, q.multicastRouter)
    && AlikeSingle(p.native, q.native) && AlikeSingle(p.portProfile, q.portProfile)
    && AlikeMulti(p.tagged, q.tagged) && AlikeSingle(p.voice, q.voice)
  }

  predicate AlikePortLists(a: array?<PortOverride>, b: array?<PortOverride>)
    reads a, b
  {
    if a == null || b == null then a == null && b == null
    else a.Length == b.Length && forall i :: 0 <= i < a.Length ==> AlikePorts(a[i], b[i])
  }

  predicate AlikeParameters(p: Parameters, q: Parameters)
    reads p.portOverride, q.portOverride
  {
    && AlikeConfigs(p.configNetwork, q.configNetwork) && AlikeSingle(p.mgmtNetwork, q.mgmtNetwork)
    && AlikeCells(p.name, q.name) && AlikePortLists(p.portOverride, q.portOverride)
  }

  lemma ConfigsTell(c: Cell?<ConfigNetwork>, e: Cell?<ConfigNetwork>)
    ensures ConfigView(c) == ConfigView(e) <==> AlikeConfigs(c, e)
    ensures AlikeConfigs(c, e)
            <==> && (c == null <==> e == null)
                 && (c != null && e != null ==>
                       && (c.value.bondingEnabled == null <==> e.value.bondingEnabled == null)
                       && (c.value.bondingEnabled != null && e.value.bondingEnabled != null ==>
                             c.value.bondingEnabled.value == e.value.bondingEnabled.value)
                       && (c.value.gateway == null <==> e.value.gateway == null)
                       && (c.value.gateway != null && e.value.gateway != null ==>
                             c.value.gateway.value == e.value.gateway.value))
  {
    if c != null && e != null {
      CellsTell(c.value.bondingEnabled, e.value.bondingEnabled);
      CellsTell(c.value.gateway, e.value.gateway);
    }
  }

  lemma PortsTell(p: PortOverride, q: PortOverride)
    ensures PortView(p) == PortView(q) <==> AlikePorts(p, q)
  {
    hide ListValue, Deref, MultiView, SingleView, AlikeLists, AlikeCells, AlikeMulti, AlikeSingle;
    ListsTell(p.aggregateMembers, q.aggregateMembers);
    CellsTell(p.autoneg, q.autoneg);
    SlotsTell(p.native, q.native, p.excluded, q.excluded);
    SlotsTell(p.portProfile, q.portProfile, p.multicastRouter, q.multicastRouter);
    SlotsTell(p.voice, q.voice, p.tagged, q.tagged);
  }

  lemma PortListsTell(a: array?<PortOverride>, b: array?<PortOverride>)
    ensures PortListView(a) == PortListView(b) <==> AlikePortLists(a, b)
  {
    hide PortView, AlikePorts;
    if a != null && b != null && a.Length == b.Length {
      forall i | 0 <= i < a.Length ensures PortView(a[i]) == PortView(b[i]) <==> AlikePorts(a[i], b[i]) {
        PortsTell(a[i], b[i]);
      }
      if PortListView(a) == PortListView(b) {
        forall i | 0 <= i < a.Length ensures AlikePorts(a[i], b[i]) {
          assert PortsView(a[..])[i] == PortsView(b[..])[i];
        }
      }
      if AlikePortLists(a, b) {
        assert PortsView(a[..]) == PortsView(b[..]);
      }
    }
  }

  /** Two halves have equal values exactly if they are alike, pointer by pointer. */
  lemma ParametersTell(p: Parameters, q: Parameters)
    ensures ParametersView(p) == ParametersView(q) <==> AlikeParameters(p, q)
  {
    hide ConfigView, Deref, SingleView, PortListView, AlikeConfigs, AlikeCells, AlikeSingle, AlikePortLists;
    ConfigsTell(p.configNetwork, q.configNetwork);
    SlotsTell(p.mgmtNetwork, q.mgmtNetwork, MultiSlot(null, null, null), MultiSlot(null, null, null));
    CellsTell(p.name, q.name);
    PortListsTell(p.portOverride, q.portOverride);
  }
}
