/**
 The Device object: `ResolveReferences` fills its reference slots in place, `DeepCopy` makes an independent copy.
 */
module Devices {
  import opened Wrappers
  import opened References
  import opened DeviceValues
  import opened DeviceResolution
  import opened DeviceProgress
  import opened Memory
  import opened SlotMemory
  import opened DeviceMemory
  import opened DeepCopy

  /** One field of one port override. */
  method ResolvePortField(resolver: Resolver, namespace: string, field: Field, port: PortOverride)
      returns (r: Result<PortOverride, Error>)
    ensures ResolveSlot(resolver, if field.PortProfileID? then PortProfile else Network, namespace,
                        PortField(PortView(port), field))
            == match r case Ok(p) => Ok(PortField(PortView(p), field)) case Err(e) => Err(e)
    ensures r.Ok? ==> PortView(r.value) == WithPortField(PortView(port), field, PortField(PortView(r.value), field))
  {
    hide ResolveSlot, SingleView, MultiView, ListValue, Deref;
    match field
    case ExcludedNetworkconfIds =>
      var s := ResolveMulti(resolver, Network, namespace, port.excluded);
      r := match s case Ok(v) => Ok(port.(excluded := v)) case Err(e) => Err(e);
    case MulticastRouterNetworkconfIds =>
      var s := ResolveMulti(resolver, Network, namespace, port.multicastRouter);
      r := match s case Ok(v) => Ok(port.(multicastRouter := v)) case Err(e) => Err(e);
    case NativeNetworkconfID =>
      var s := ResolveSingle(resolver, Network, namespace, port.native);
      r := match s case Ok(v) => Ok(port.(native := v)) case Err(e) => Err(e);
    case PortProfileID =>
      var s := ResolveSingle(resolver, PortProfile, namespace, port.portProfile);
      r := match s case Ok(v) => Ok(port.(portProfile := v)) case Err(e) => Err(e);
    case TaggedNetworkconfIds =>
      var s := ResolveMulti(resolver, Network, namespace, port.tagged);
      r := match s case Ok(v) => Ok(port.(tagged := v)) case Err(e) => Err(e);
    case VoiceNetworkconfID =>
      var s := ResolveSingle(resolver, Network, namespace, port.voice);
      r := match s case Ok(v) => Ok(port.(voice := v)) case Err(e) => Err(e);
  }

  class Device {
    var namespace: string
    var forProvider: Parameters
    var initProvider: Parameters

    /** The zero value. */
    constructor ()
    {
      var none := Parameters(null, SingleSlot(null, null, null), null, null);
      namespace, forProvider, initProvider := "", none, none;
    }

    /** The two halves have port override slices of different types, so they never share one. */
    predicate Valid()
      reads this
    {
      forProvider.portOverride != null ==> forProvider.portOverride != initProvider.portOverride
    }

    function View(): DeviceValue
      reads this, forProvider.portOverride, initProvider.portOverride
    {
      DeviceValue(namespace, ParametersView(forProvider), ParametersView(initProvider))
    }

    /** Every object the device leads to, once for every pointer slot, and the device itself. */
    function AllPointers(): Targets
      reads this, forProvider.portOverride, initProvider.portOverride
    {
      multiset{this as object} + ParametersPointers(forProvider) + ParametersPointers(initProvider)
    }

    lemma ViewIs()
      ensures View().namespace == namespace
      ensures View().forProvider == ParametersView(forProvider) && View().initProvider == ParametersView(initProvider)
      ensures AllPointers()
              == multiset{this as object} + ParametersPointers(forProvider) + ParametersPointers(initProvider)
    {
    }

    function Half(half: DeviceValues.Half): Parameters
      reads this
    {
      if half.ForProvider? then forProvider else initProvider
    }

    method StoreMgmt(half: DeviceValues.Half, slot: SingleSlot)
      modifies this
      ensures View() == WithSlot(old(View()), MgmtNetworkID(half), SingleView(slot))
      ensures forProvider.portOverride == old(forProvider.portOverride)
      ensures initProvider.portOverride == old(initProvider.portOverride)
    {
      if half.ForProvider? {
        forProvider := forProvider.(mgmtNetwork := slot);
      } else {
        initProvider := initProvider.(mgmtNetwork := slot);
      }
    }

    /** Assigning one field of `PortOverride[i]`. */
    method StorePort(half: DeviceValues.Half, ports: array<PortOverride>, field: Field, i: nat, port: PortOverride)
      requires Valid() && Half(half).portOverride == ports && i < ports.Length
      requires PortView(port) == WithPortField(PortView(ports[i]), field, PortField(PortView(port), field))
      modifies ports
      ensures HasSlot(old(View()), PortSlot(half, field, i))
      ensures View() == WithSlot(old(View()), PortSlot(half, field, i), PortField(PortView(port), field))
    {
      hide PortView, PortField, WithPortField;
      ghost var was := PortsView(ports[..]);
      ports[i] := port;
      assert PortsView(ports[..]) == was[i := PortView(port)];
    }

    method ResolveMgmt(resolver: Resolver, half: DeviceValues.Half, ghost start: DeviceValue)
        returns (err: Option<(Label, Error)>)
      requires Valid()
      requires Reached(resolver, start, if half.ForProvider? then [] else CodePrefix(start, ForProvider, |PHASES|),
                       View())
      modifies this
      ensures Valid() && forProvider.portOverride == old(forProvider.portOverride)
      ensures initProvider.portOverride == old(initProvider.portOverride)
      ensures err.None? ==> Reached(resolver, start, CodePrefix(start, half, 0), View())
      ensures err.Some? ==> Stopped(resolver, start, Order(start), View(), err.value)
    {
      hide Reached, Stopped, CodePrefix, ResolveSlot, WithSlot, Order;
      MgmtStep(resolver, start, half, View());
      var r := ResolveSingle(resolver, Network, namespace, Half(half).mgmtNetwork);
      if r.Err? {
        return Some((MgmtLabel(half), r.error));
      }
      StoreMgmt(half, r.value);
      return None;
    }

    /** One of the loops over the port overrides of a half. */
    method ResolvePhase(resolver: Resolver, half: DeviceValues.Half, field: Field, ghost k: nat,
                        ghost start: DeviceValue)
      returns (err: Option<(Label, Error)>)
      requires Valid() && k < |PHASES| && field == PHASES[k]
      requires Reached(resolver, start, CodePrefix(start, half, k), View())
      modifies Half(half).portOverride
      ensures err.None? ==> Reached(resolver, start, CodePrefix(start, half, k + 1), View())
      ensures err.Some? ==> Stopped(resolver, start, Order(start), View(), err.value)
    {
      hide Reached, Stopped, CodePrefix, ResolveSlot, WithSlot, PortView, Order, WithPortField, PortField;
      var ports := Half(half).portOverride;
      SamePorts(resolver, start, CodePrefix(start, half, k), View(), half);
      PrefixNext(start, half, k);
      assert CodePrefix(start, half, k) + Phase(half, field, 0) == CodePrefix(start, half, k);
      if ports == null {
        return None;
      }
      var i := 0;
      while i < ports.Length
        invariant 0 <= i <= ports.Length == |Ports(HalfOf(start, half))|
        invariant Reached(resolver, start, CodePrefix(start, half, k) + Phase(half, field, i), View())
      {
        PortStep(resolver, start, half, k, i, View());
        assert SlotAt(View(), PortSlot(half, field, i)) == PortField(PortView(ports[i]), field);
        var r := ResolvePortField(resolver, namespace, field, ports[i]);
        if r.Err? {
          return Some((PortLabel(half, field), r.error));
        }
        StorePort(half, ports, field, i, r.value);
        i := i + 1;
      }
      return None;
    }

    /** The statements of one half: the management network, then one loop per field. */
    method ResolveHalf(resolver: Resolver, half: DeviceValues.Half, ghost start: DeviceValue)
        returns (err: Option<(Label, Error)>)
      requires Valid()
      requires Reached(resolver, start, if half.ForProvider? then [] else CodePrefix(start, ForProvider, |PHASES|),
                       View())
      modifies this, Half(half).portOverride
      ensures Valid() && forProvider.portOverride == old(forProvider.portOverride)
      ensures initProvider.portOverride == old(initProvider.portOverride)
      ensures err.None? ==> Reached(resolver, start, CodePrefix(start, half, |PHASES|), View())
      ensures err.Some? ==> Stopped(resolver, start, Order(start), View(), err.value)
    {
      hide Reached, Stopped, CodePrefix, Order, View;
      err := ResolveMgmt(resolver, half, start);
      if err.Some? { return; }
      err := ResolvePhase(resolver, half, ExcludedNetworkconfIds, 0, start);
      if err.Some? { return; }
      err := ResolvePhase(resolver, half, MulticastRouterNetworkconfIds, 1, start);
      if err.Some? { return; }
      err := ResolvePhase(resolver, half, NativeNetworkconfID, 2, start);
      if err.Some? { return; }
      err := ResolvePhase(resolver, half, PortProfileID, 3, start);
      if err.Some? { return; }
      err := ResolvePhase(resolver, half, TaggedNetworkconfIds, 4, start);
      if err.Some? { return; }
      err := ResolvePhase(resolver, half, VoiceNetworkconfID, 5, start);
    }

    /** The device ends as the resolution of its original value prescribes, error and all. */
    method ResolveReferences(resolver: Resolver) returns (err: Option<(Label, Error)>)
      requires Valid()
      modifies this, forProvider.portOverride, initProvider.portOverride
      ensures Valid() && forProvider.portOverride == old(forProvider.portOverride)
      ensures initProvider.portOverride == old(initProvider.portOverride)
      ensures SlotsOf(View()) == Resolved(resolver, old(View())).state && RestOf(View()) == RestOf(old(View()))
      ensures err == WrappedError(Resolved(resolver, old(View())))
      ensures var failed := Resolved(resolver, old(View())).failedAt;
              if failed == None then err == None
              else if failed.value.0.MgmtNetworkID? then err == Some((MgmtLabel(failed.value.0.half), failed.value.1))
              else err == Some((PortLabel(failed.value.0.half, failed.value.0.field), failed.value.1))
    {
      hide Reached, Stopped, CodePrefix, Resolved, SlotsOf, RestOf, View;
      ghost var start := View();
      NothingDone(resolver, start);
      err := ResolveHalf(resolver, ForProvider, start);
      if err.Some? {
        CallDone(resolver, start, View(), err);
        return;
      }
      err := ResolveHalf(resolver, InitProvider, start);
      PrefixEnds(start);
      CallDone(resolver, start, View(), err);
    }

    /** The copy starts out sharing everything with the device and ends up sharing nothing. */
    method DeepCopyInto(out: Device)
      modifies out
      ensures out.View() == old(View()) && out.Valid()
      ensures Unshared(out.AllPointers())
      ensures forall o :: o in out.AllPointers() ==> o == out || (fresh(o) && allocated(o))
      ensures out.forProvider.portOverride != null ==> fresh(out.forProvider.portOverride)
      ensures out.initProvider.portOverride != null ==> fresh(out.initProvider.portOverride)
    {
      hide ParametersView, ParametersPointers;
      ghost var v := View();
      out.Assign(namespace, forProvider, initProvider);
      assert out.View() == v;
      var p, q := CopyHalves(out.forProvider, out.initProvider);
      UnsharedJoin(multiset{out as object}, ParametersPointers(p) + ParametersPointers(q));
      out.Assign(namespace, p, q);
    }

    method Assign(namespace: string, forProvider: Parameters, initProvider: Parameters)
      modifies this
      ensures this.namespace == namespace && this.forProvider == forProvider && this.initProvider == initProvider
      ensures View() == DeviceValue(namespace, old(ParametersView(forProvider)), old(ParametersView(initProvider)))
      ensures AllPointers()
              == old(multiset{this as object} + (ParametersPointers(forProvider) + ParametersPointers(initProvider)))
    {
      hide ConfigView, SingleView, Deref, ConfigPointers, SinglePointers, Pointer, PortsView, PortsPointers;
      this.namespace, this.forProvider, this.initProvider := namespace, forProvider, initProvider;
    }

    /** A nil device is copied to nil. Nothing that existed before is changed. */
    static method DeepCopy(source: Device?) returns (out: Device?)
      ensures out == null <==> source == null
      ensures out != null ==> fresh(out) && out.View() == source.View() && out.Valid() && Unshared(out.AllPointers())
      ensures out != null && source != null ==>
                && out.namespace == source.namespace
                && AlikeParameters(out.forProvider, source.forProvider)
                && AlikeParameters(out.initProvider, source.initProvider)
      ensures out != null ==> forall o :: o in out.AllPointers() ==> fresh(o) && allocated(o)
      ensures out != null && out.forProvider.portOverride != null ==> fresh(out.forProvider.portOverride)
      ensures out != null && out.initProvider.portOverride != null ==> fresh(out.initProvider.portOverride)
    {
      hide ParametersView, ParametersPointers, AlikeParameters;
      if source == null {
        return null;
      }
      ghost var f, g := source.forProvider.portOverride, source.initProvider.portOverride;
      assert allocated(f) && allocated(g);
      ghost var v := source.View();
      out := new Device();
      assert source.View() == v;
      source.DeepCopyInto(out);
      assert source.View() == v;
      ParametersTell(out.forProvider, source.forProvider);
      ParametersTell(out.initProvider, source.initProvider);
    }

    /** Reconciling again and again: attempts with any results, then one more. */
    method Reconcile(attempts: seq<Resolver>, last: Resolver) returns (err: Option<(Label, Error)>)
      requires Valid()
      modifies this, forProvider.portOverride, initProvider.portOverride
      ensures Valid() && forProvider.portOverride == old(forProvider.portOverride)
      ensures initProvider.portOverride == old(initProvider.portOverride)
      ensures SlotsOf(View()) == AfterAttempts(attempts, last, old(View())).state
              && RestOf(View()) == RestOf(old(View()))
      ensures err == WrappedError(AfterAttempts(attempts, last, old(View())))
      decreases |attempts|
    {
      hide Resolved, WrappedError, SlotsOf, RestOf, View, AfterAttempts;
      ghost var start := View();
      if attempts == [] {
        OneAttempt(last, start);
        err := ResolveReferences(last);
      } else {
        var _ := ResolveReferences(attempts[0]);
        FirstAttempt(attempts, last, start, View());
        err := Reconcile(attempts[1..], last);
      }
    }

    /** Resolving a deep copy leaves everything that existed before as it was. */
    static method ResolveCopy(source: Device, resolver: Resolver) returns (copy: Device, err: Option<(Label, Error)>)
      ensures source.View() == old(source.View())
      ensures fresh(copy) && copy.Valid() && RestOf(copy.View()) == RestOf(source.View())
      ensures SlotsOf(copy.View()) == Resolved(resolver, source.View()).state
      ensures err == WrappedError(Resolved(resolver, source.View()))
      ensures copy.forProvider.portOverride != null ==> fresh(copy.forProvider.portOverride)
      ensures copy.initProvider.portOverride != null ==> fresh(copy.initProvider.portOverride)
    {
      hide Resolved, WrappedError, SlotsOf, RestOf, ParametersView, ParametersPointers;
      ghost var f, g := source.forProvider.portOverride, source.initProvider.portOverride;
      assert allocated(f) && allocated(g);
      ghost var v := source.View();
      copy := DeepCopy(source);
      assert source.View() == v;
      err := copy.ResolveReferences(resolver);
    }

    /** The resolved copy has the value, and the call the error, that resolving the original has. */
    static method ResolveBoth(source: Device, resolver: Resolver)
        returns (copy: Device, one: Option<(Label, Error)>, other: Option<(Label, Error)>)
      requires source.Valid()
      modifies source, source.forProvider.portOverride, source.initProvider.portOverride
      ensures fresh(copy) && copy.View() == source.View() && one == other
    {
      hide Resolved, WrappedError, SlotsOf, RestOf, ParametersView, ParametersPointers;
      copy, one := ResolveCopy(source, resolver);
      other := source.ResolveReferences(resolver);
      DeviceDetermined(copy.View(), source.View());
    }

    /**
     Convergence of the object: after any attempts and a final success, it is the value that a copy made before
     them takes in a single successful call.
     */
    static method Converge(source: Device, attempts: seq<Resolver>, last: Resolver, single: Resolver)
      returns (copy: Device, one: Option<(Label, Error)>, other: Option<(Label, Error)>)
      requires source.Valid()
      requires forall r :: r in attempts + [last] ==> StandsByAnswers(r, single, source.View())
      modifies source, source.forProvider.portOverride, source.initProvider.portOverride
      ensures fresh(copy) && one == WrappedError(Resolved(single, old(source.View())))
      ensures one.None? && other.None? ==> source.View() == copy.View()
    {
      hide Resolved, SlotsOf, RestOf, Device.View, AfterAttempts, StandsByAnswers;
      ghost var start := source.View();
      copy, one := ResolveCopy(source, single);
      other := source.Reconcile(attempts, last);
      if one.None? && other.None? {
        DeviceConverges(attempts, last, single, start);
        DeviceDetermined(copy.View(), source.View());
      }
    }
  }
}
