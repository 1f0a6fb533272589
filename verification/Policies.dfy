/** The firewall Policy object: nested blocks behind nil guards, filled in place by `ResolveReferences`. */
module Policies {
  import opened Wrappers
  import opened References
  import opened PolicyResolution
  import opened Memory
  import opened SlotMemory

  /** A destination or source block, reached through a pointer and written through it. */
  class Endpoint {
    var clientMacs: Slice?<Cell?<string>>
    var ipGroup: SingleSlot
    var networks: MultiSlot
    var portGroup: SingleSlot
    var zone: SingleSlot

    constructor (clientMacs: Slice?<Cell?<string>>, ipGroup: SingleSlot, networks: MultiSlot, portGroup: SingleSlot,
                 zone: SingleSlot)
      ensures View() == EndpointValue(ListValue(clientMacs), SingleView(ipGroup), MultiView(networks),
                                      SingleView(portGroup), SingleView(zone))
    {
      this.clientMacs, this.ipGroup, this.networks, this.portGroup, this.zone := clientMacs, ipGroup, networks,
          portGroup, zone;
    }

    function View(): EndpointValue
      reads this
    {
      EndpointValue(ListValue(clientMacs), SingleView(ipGroup), MultiView(networks), SingleView(portGroup),
                    SingleView(zone))
    }

    lemma ViewIs()
      ensures View().clientMacs == ListValue(clientMacs)
      ensures View().ipGroup == SingleView(ipGroup) && View().networks == MultiView(networks)
      ensures View().portGroup == SingleView(portGroup) && View().zone == SingleView(zone)
    {
    }

    /** The request for one field, and its answer stored; an error changes nothing. */
    method Resolve(resolver: Resolver, namespace: string, block: Block, field: Field) returns (err: Option<Error>)
      modifies this
      ensures var to := if field == NetworkIds then Network else if field == ZoneID then Zone else Group;
              match ResolveSlot(resolver, to, namespace, EndpointField(old(View()), field))
              case Ok(v) => err == None && View() == WithEndpointField(old(View()), field, v)
              case Err(e) => err == Some(e) && View() == old(View())
    {
      hide ResolveSlot, SingleView, MultiView, ListValue;
      if field.NetworkIds? {
        var r := ResolveMulti(resolver, Network, namespace, networks);
        if r.Err? { return Some(r.error); }
        networks := r.value;
        return None;
      }
      var r := ResolveSingle(resolver, TargetOf(Slot(block, field)), namespace,
                             match field case IPGroupID => ipGroup case PortGroupID => portGroup case _ => zone);
      if r.Err? { return Some(r.error); }
      match field {
        case IPGroupID => ipGroup := r.value;
        case PortGroupID => portGroup := r.value;
        case ZoneID => zone := r.value;
      }
      return None;
    }
  }

  function EndpointView(e: Endpoint?): Option<EndpointValue>
    reads e
  {
    if e == null then None else Some(e.View())
  }

  class Policy {
    const namespace: string
    var forDestination: Endpoint?
    var forSource: Endpoint?
    var initDestination: Endpoint?
    var initSource: Endpoint?

    constructor (namespace: string, forDestination: Endpoint?, forSource: Endpoint?, initDestination: Endpoint?,
                 initSource: Endpoint?)
      requires forDestination != null ==> forDestination !in {forSource, initDestination, initSource}
      requires forSource != null ==> forSource !in {initDestination, initSource}
      requires initDestination != null ==> initDestination != initSource
      ensures Valid() && this.namespace == namespace && this.forDestination == forDestination
              && this.forSource == forSource
      ensures this.initDestination == initDestination && this.initSource == initSource
    {
      this.namespace, this.forDestination, this.forSource := namespace, forDestination, forSource;
      this.initDestination, this.initSource := initDestination, initSource;
    }

    /** The four blocks have four different types, so no two of them are the same object. */
    predicate Valid()
      reads this
    {
      && (forDestination != null ==> forDestination !in {forSource, initDestination, initSource})
      && (forSource != null ==> forSource !in {initDestination, initSource})
      && (initDestination != null ==> initDestination != initSource)
    }

    function At(block: Block): Endpoint?
      reads this
    {
      match block
      case ForDestination => forDestination
      case ForSource => forSource
      case InitDestination => initDestination
      case InitSource => initSource
    }

    function View(): PolicyValue
      reads this, forDestination, forSource, initDestination, initSource
    {
      PolicyValue(namespace, EndpointView(forDestination), EndpointView(forSource),
                  EndpointView(initDestination), EndpointView(initSource))
    }

    lemma ViewIs()
      ensures View().namespace == namespace
      ensures forDestination == null <==> View().forDestination == None
      ensures forDestination != null ==> View().forDestination == Some(forDestination.View())
      ensures forSource == null <==> View().forSource == None
      ensures forSource != null ==> View().forSource == Some(forSource.View())
      ensures initDestination == null <==> View().initDestination == None
      ensures initDestination != null ==> View().initDestination == Some(initDestination.View())
      ensures initSource == null <==> View().initSource == None
      ensures initSource != null ==> View().initSource == Some(initSource.View())
    {
    }

    /** One guarded statement. */
    method ResolveField(resolver: Resolver, block: Block, field: Field, ghost k: nat, ghost start: PolicyValue)
      returns (err: Option<(Slot, Error)>)
      requires Valid() && k < STATEMENTS && Statement(k) == Slot(block, field)
      requires Reached(resolver, start, k, View())
      modifies At(block)
      ensures err.None? ==> Reached(resolver, start, k + 1, View())
      ensures err.Some? ==> Done(resolver, start, View(), err)
    {
      hide Reached, Done, ResolveSlot, Statement, WithEndpointField, EndpointField;
      StatementStep(resolver, start, k, View());
      var endpoint := At(block);
      if endpoint == null {
        return None;
      }
      var e := endpoint.Resolve(resolver, namespace, block, field);
      return match e case None => None case Some(error) => Some((Slot(block, field), error));
    }

    /** The four statements of one block. */
    method ResolveBlock(resolver: Resolver, block: Block, ghost k: nat, ghost start: PolicyValue)
        returns (err: Option<(Slot, Error)>)
      requires Valid() && k == Number(Slot(block, IPGroupID))
      requires Reached(resolver, start, k, View())
      modifies At(block)
      ensures err.None? ==> Reached(resolver, start, k + 4, View())
      ensures err.Some? ==> Done(resolver, start, View(), err)
    {
      hide Reached, Done, View;
      err := ResolveField(resolver, block, IPGroupID, k, start);
      if err.Some? { return; }
      err := ResolveField(resolver, block, NetworkIds, k + 1, start);
      if err.Some? { return; }
      err := ResolveField(resolver, block, PortGroupID, k + 2, start);
      if err.Some? { return; }
      err := ResolveField(resolver, block, ZoneID, k + 3, start);
    }

    /** The policy ends as the resolution of its original value prescribes; no block appears or goes away. */
    method ResolveReferences(resolver: Resolver) returns (err: Option<(Slot, Error)>)
      requires Valid()
      modifies forDestination, forSource, initDestination, initSource
      ensures Resolved(resolver, old(View())) == Slots.Outcome(SlotsOf(View()), err)
      ensures RestOf(View()) == RestOf(old(View()))
    {
      hide Reached, View, SlotsOf, RestOf, Resolved;
      ghost var start := View();
      NothingDone(resolver, start);
      err := ResolveBlock(resolver, ForDestination, 0, start);
      if err.Some? { return; }
      err := ResolveBlock(resolver, ForSource, 4, start);
      if err.Some? { return; }
      err := ResolveBlock(resolver, InitDestination, 8, start);
      if err.Some? { return; }
      err := ResolveBlock(resolver, InitSource, 12, start);
      if err.Some? { return; }
      AllDone(resolver, start, View());
    }

    /** Reconciling again and again: attempts with any results, then one more. */
    method Reconcile(attempts: seq<Resolver>, last: Resolver) returns (err: Option<(Slot, Error)>)
      requires Valid()
      modifies forDestination, forSource, initDestination, initSource
      ensures AfterAttempts(attempts, last, old(View())) == Slots.Outcome(SlotsOf(View()), err)
      ensures RestOf(View()) == RestOf(old(View()))
      decreases |attempts|
    {
      hide Resolved, SlotsOf, RestOf, View, AfterAttempts;
      ghost var start := View();
      if attempts == [] {
        OneAttempt(last, start);
        err := ResolveReferences(last);
      } else {
        var _ := ResolveReferences(attempts[0]);
        FirstAttempt(attempts, last, start, View());
        err := Reconcile(attempts[1..], last);
      }
    }

    /**
     Convergence of the object: after any attempts and a final success, a policy is what another one of the same
     value becomes in a single successful call.
     */
    static method Converge(policy: Policy, twin: Policy, attempts: seq<Resolver>, last: Resolver, single: Resolver)
      returns (one: Option<(Slot, Error)>, other: Option<(Slot, Error)>)
      requires policy.Valid() && twin.Valid() && policy.View() == twin.View()
      requires forall o :: o in policy.Blocks() && o in twin.Blocks() ==> o == null
      requires forall r :: r in attempts + [last] ==> StandsByAnswers(r, single, policy.View())
      modifies policy.Blocks(), twin.Blocks()
      ensures one.None? && other.None? ==> policy.View() == twin.View()
    {
      hide Resolved, SlotsOf, RestOf, AfterAttempts, StandsByAnswers, Endpoint.View;
      ghost var start := policy.View();
      assert policy.forDestination in policy.Blocks() && policy.forSource in policy.Blocks();
      assert policy.initDestination in policy.Blocks() && policy.initSource in policy.Blocks();
      one := policy.Reconcile(attempts, last);
      assert twin.View() == start;
      ghost var done := policy.View();
      other := twin.ResolveReferences(single);
      assert policy.View() == done;
      if one.None? && other.None? {
        PoliciesMeet(attempts, last, single, start, policy.View(), twin.View());
      }
    }

    ghost function Blocks(): set<Endpoint?>
      reads this
    {
      {forDestination, forSource, initDestination, initSource}
    }
  }
}
