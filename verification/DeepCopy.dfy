/**
 The generated deep copies of the structures of a Device. Each starts from `*out = *in`, so that every pointer of
 the copy is shared with the source, and replaces the pointers one after the other.
 */
module DeepCopy {
  import opened Memory
  import opened SlotMemory
  import opened DeviceMemory

  method CopySingle(source: SingleSlot) returns (out: SingleSlot)
    ensures SingleView(out) == SingleView(source)
    ensures Unshared(SinglePointers(out)) && forall o :: o in SinglePointers(out) ==> fresh(o) && allocated(o)
  {
    out := source;
    var id := CopyCell(source.id);
    out := out.(id := id);
    var ref := CopyCell(source.ref);
    out := out.(ref := ref);
    UnsharedJoin(Pointer(id), Pointer(ref));
    var selector := CopyCell(source.selector);
    out := out.(selector := selector);
    UnsharedJoin(Pointer(id) + Pointer(ref), Pointer(selector));
  }

  method CopyMulti(source: MultiSlot) returns (out: MultiSlot)
    ensures MultiView(out) == MultiView(source)
    ensures Unshared(MultiPointers(out)) && forall o :: o in MultiPointers(out) ==> fresh(o) && allocated(o)
  {
    out := source;
    var ids := CopyList(source.ids);
    out := out.(ids := ids);
    var refs := CopyArray(source.refs);
    out := out.(refs := refs);
    ghost var targets := ListPointers(ids);
    UnsharedJoin(targets, ArrayPointer(refs));
    targets := targets + ArrayPointer(refs);
    var selector := CopyCell(source.selector);
    out := out.(selector := selector);
    UnsharedJoin(targets, Pointer(selector));
  }

  /** The fields up to `MulticastRouterNetworkconfIds`, on a copy that shares the others with the source. */
  method CopyListed(source: PortOverride) returns (out: PortOverride)
    ensures out == source.(aggregateMembers := out.aggregateMembers, autoneg := out.autoneg,
                           excluded := out.excluded, multicastRouter := out.multicastRouter)
    ensures ListValue(out.aggregateMembers) == ListValue(source.aggregateMembers)
    ensures Deref(out.autoneg) == Deref(source.autoneg)
    ensures MultiView(out.excluded) == MultiView(source.excluded)
    ensures MultiView(out.multicastRouter) == MultiView(source.multicastRouter)
    ensures Unshared(ListedPointers(out)) && forall o :: o in ListedPointers(out) ==> fresh(o) && allocated(o)
  {
    hide ListValue, ListPointers, MultiView, MultiPointers, SingleView, SinglePointers, Pointer, Deref;
    out := source;
    var aggregateMembers := CopyList(source.aggregateMembers);
    out := out.(aggregateMembers := aggregateMembers);
    ghost var targets := ListPointers(aggregateMembers);
    var autoneg := CopyCell(source.autoneg);
    out := out.(autoneg := autoneg);
    UnsharedJoin(targets, Pointer(autoneg));
    targets := targets + Pointer(autoneg);
    var excluded := CopyMulti(source.excluded);
    out := out.(excluded := excluded);
    UnsharedJoin(targets, MultiPointers(excluded));
    targets := targets + MultiPointers(excluded);
    var multicastRouter := CopyMulti(source.multicastRouter);
    out := out.(multicastRouter := multicastRouter);
    UnsharedJoin(targets, MultiPointers(multicastRouter));
  }

  /** The remaining fields. */
  method CopyProfiled(source: PortOverride, shared: PortOverride) returns (out: PortOverride)
    ensures out == shared.(native := out.native, portProfile := out.portProfile, tagged := out.tagged,
                           voice := out.voice)
    ensures SingleView(out.native) == SingleView(source.native)
    ensures SingleView(out.portProfile) == SingleView(source.portProfile)
    ensures MultiView(out.tagged) == MultiView(source.tagged)
    ensures SingleView(out.voice) == SingleView(source.voice)
    ensures Unshared(ProfiledPointers(out)) && forall o :: o in ProfiledPointers(out) ==> fresh(o) && allocated(o)
  {
    hide ListValue, ListPointers, MultiView, MultiPointers, SingleView, SinglePointers, Pointer, Deref;
    out := shared;
    var native := CopySingle(source.native);
    out := out.(native := native);
    ghost var targets := SinglePointers(native);
    var portProfile := CopySingle(source.portProfile);
    out := out.(portProfile := portProfile);
    UnsharedJoin(targets, SinglePointers(portProfile));
    targets := targets + SinglePointers(portProfile);
    var tagged := CopyMulti(source.tagged);
    out := out.(tagged := tagged);
    UnsharedJoin(targets, MultiPointers(tagged));
    targets := targets + MultiPointers(tagged);
    var voice := CopySingle(source.voice);
    out := out.(voice := voice);
    UnsharedJoin(targets, SinglePointers(voice));
  }

  method CopyPort(source: PortOverride) returns (out: PortOverride)
    ensures PortView(out) == PortView(source)
    ensures Unshared(PortPointers(out)) && forall o :: o in PortPointers(out) ==> fresh(o) && allocated(o)
  {
    hide ListValue, ListPointers, MultiView, MultiPointers, SingleView, SinglePointers, Pointer, Deref;
    out := CopyListed(source);
    ghost var targets := ListedPointers(out);
    out := CopyProfiled(source, out);
    assert ListedPointers(out) == targets;
    hide ListedPointers, ProfiledPointers;
    UnsharedJoin(targets, ProfiledPointers(out));
  }

  const ZERO_PORT := PortOverride(null, null, MultiSlot(null, null, null), MultiSlot(null, null, null),
                                  SingleSlot(null, null, null), SingleSlot(null, null, null),
                                  MultiSlot(null, null, null), SingleSlot(null, null, null))

  /** A slice of structs: a new backing array, each element deep copied into its place. */
  method CopyPorts(source: array?<PortOverride>) returns (out: array?<PortOverride>)
    ensures PortListView(out) == PortListView(source)
    ensures Unshared(PortListPointers(out)) && forall o :: o in PortListPointers(out) ==> fresh(o) && allocated(o)
  {
    hide PortView, PortPointers, PortsPointers;
    if source == null {
      return null;
    }
    NoPorts();
    out := new PortOverride[source.Length](_ => ZERO_PORT);
    ghost var copied: seq<PortOverride>, targets: Targets := [], multiset{};
    var i := 0;
    while i < source.Length
      invariant 0 <= i <= source.Length == out.Length
      invariant fresh(out) && |copied| == i && targets == PortsPointers(copied)
      invariant forall k :: 0 <= k < i ==> out[k] == copied[k]
      invariant forall k :: 0 <= k < i ==> PortView(copied[k]) == PortView(source[k])
      invariant Unshared(targets) && forall o :: o in targets ==> fresh(o) && allocated(o) && o != out
    {
      var port := CopyPort(source[i]);
      UnsharedJoin(targets, PortPointers(port));
      PortsPointersAppend(copied, port);
      out[i] := port;
      copied := copied + [port];
      targets := targets + PortPointers(port);
      i := i + 1;
    }
    assert out[..] == copied;
    assert PortsView(copied) == PortsView(source[..]);
    UnsharedJoin(multiset{out as object}, targets);
  }

  lemma NoPorts()
    ensures PortsPointers([]) == multiset{}
  {
  }

  lemma PortsPointersAppend(ports: seq<PortOverride>, port: PortOverride)
    ensures PortsPointers(ports + [port]) == PortsPointers(ports) + PortPointers(port)
  {
    hide PortPointers;
    assert (ports + [port])[..|ports|] == ports;
  }

  /** A pointer to a struct that holds pointers itself. */
  method CopyConfigNetwork(source: Cell?<ConfigNetwork>) returns (out: Cell?<ConfigNetwork>)
    ensures ConfigView(out) == ConfigView(source)
    ensures out == null <==> source == null
    ensures out != null && source != null ==>
              && (out.value.bondingEnabled == null <==> source.value.bondingEnabled == null)
              && (out.value.bondingEnabled != null && source.value.bondingEnabled != null ==>
                    out.value.bondingEnabled.value == source.value.bondingEnabled.value)
              && (out.value.gateway == null <==> source.value.gateway == null)
              && (out.value.gateway != null && source.value.gateway != null ==>
                    out.value.gateway.value == source.value.gateway.value)
    ensures Unshared(ConfigPointers(out)) && forall o :: o in ConfigPointers(out) ==> fresh(o) && allocated(o)
  {
    if source == null {
      return null;
    }
    var config := source.value;
    var bondingEnabled := CopyCell(source.value.bondingEnabled);
    config := config.(bondingEnabled := bondingEnabled);
    var gateway := CopyCell(source.value.gateway);
    config := config.(gateway := gateway);
    out := new Cell(config);
  }

  method CopyParameters(source: Parameters) returns (out: Parameters)
    ensures ParametersView(out) == ParametersView(source)
    ensures Unshared(ParametersPointers(out)) && forall o :: o in ParametersPointers(out) ==> fresh(o) && allocated(o)
  {
    hide ConfigView, ConfigPointers, SingleView, SinglePointers, Pointer, Deref, PortListView, PortListPointers;
    out := source;
    var configNetwork := CopyConfigNetwork(source.configNetwork);
    out := out.(configNetwork := configNetwork);
    var mgmtNetwork := CopySingle(source.mgmtNetwork);
    out := out.(mgmtNetwork := mgmtNetwork);
    var name := CopyCell(source.name);
    out := out.(name := name);
    var portOverride := CopyPorts(source.portOverride);
    out := out.(portOverride := portOverride);
  }

  /** The copies of two structures share nothing with each other. */
  method CopyHalves(f: Parameters, g: Parameters) returns (p: Parameters, q: Parameters)
    ensures ParametersView(p) == ParametersView(f) && ParametersView(q) == ParametersView(g)
    ensures Unshared(ParametersPointers(p) + ParametersPointers(q))
    ensures forall o :: o in ParametersPointers(p) + ParametersPointers(q) ==> fresh(o) && allocated(o)
    ensures p.portOverride != null ==> fresh(p.portOverride) && p.portOverride != q.portOverride
    ensures q.portOverride != null ==> fresh(q.portOverride)
  {
    hide ConfigView, SingleView, Deref, PortListView, ConfigPointers, SinglePointers, Pointer, PortListPointers;
    p := CopyParameters(f);
    ghost var targets := ParametersPointers(p);
    q := CopyParameters(g);
    UnsharedJoin(targets, ParametersPointers(q));
    PortsAmongPointers(p);
    PortsAmongPointers(q);
  }
}
