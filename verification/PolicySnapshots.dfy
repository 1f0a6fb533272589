/** A policy and snapshots of the API server: its zones are looked for among the zones. */
module PolicySnapshots {
  import opened Wrappers
  import opened Slots
  import opened References
  import opened PolicyResolution
  import Snapshots

  const NO_LIST: SlotValue := Many(None, None, None)

  /** Its destination is to be the zone called lan. */
  function ZonePolicy(): PolicyValue {
    PolicyValue("", Some(EndpointValue(None, NO_SLOT, NO_LIST, NO_SLOT, One(None, Some(Reference("lan", None)), None))),
                None, None, None)
  }

  function OneOf(kind: Kind): seq<Snapshots.Object> {
    [Snapshots.Entry(kind, "", "lan", "7", map[])]
  }

  /** With a zone of that name the call succeeds and stores its id. */
  lemma ZoneFound()
    ensures var r := Resolved(Snapshots.Snapshot(OneOf(Zone)), ZonePolicy());
            && r.failedAt == None && Slot(ForDestination, ZoneID) in r.state
            && r.state[Slot(ForDestination, ZoneID)] == One(Some("7"), Some(Reference("lan", None)), None)
  {
    hide ResolveSlot, Snapshots.Snapshot, Resolved, Number, OneOf;
    PolicyExact(Snapshots.Snapshot(OneOf(Zone)), ZonePolicy());
    AllAnswer();
  }

  /** With a group or a network of that name the call fails at the zone. */
  lemma NoZoneFound(kind: Kind)
    requires kind != Zone
    ensures var r := Resolved(Snapshots.Snapshot(OneOf(kind)), ZonePolicy());
            r.failedAt == Some((Slot(ForDestination, ZoneID), "not found"))
  {
    hide ResolveSlot, Snapshots.Snapshot, Resolved, SlotAt, HasSlot, Number, OneOf;
    PolicyExact(Snapshots.Snapshot(OneOf(kind)), ZonePolicy());
    OnlyZoneMissing(kind);
  }

  lemma OnlyZoneMissing(kind: Kind)
    requires kind != Zone
    ensures HasSlot(ZonePolicy(), Slot(ForDestination, ZoneID))
    ensures forall slot :: HasSlot(ZonePolicy(), slot) ==>
              var to := if slot.field == NetworkIds then Network else if slot.field == ZoneID then Zone else Group;
              var r := ResolveSlot(Snapshots.Snapshot(OneOf(kind)), to, "", SlotAt(ZonePolicy(), slot));
              if slot == Slot(ForDestination, ZoneID) then r == Err("not found") else r.Ok?
  {
    LanIs(kind);
  }

  lemma LanIs(kind: Kind)
    ensures Snapshots.Find(OneOf(kind), kind, "", "lan") == Some("7")
    ensures forall other: Kind :: other != kind ==> Snapshots.Find(OneOf(kind), other, "", "lan") == None
  {
    assert OneOf(kind)[1..] == [];
  }

  lemma AllAnswer()
    ensures forall slot :: HasSlot(ZonePolicy(), slot) ==>
              var to := if slot.field == NetworkIds then Network else if slot.field == ZoneID then Zone else Group;
              ResolveSlot(Snapshots.Snapshot(OneOf(Zone)), to, "", SlotAt(ZonePolicy(), slot)).Ok?
    ensures ResolveSlot(Snapshots.Snapshot(OneOf(Zone)), Zone, "", SlotAt(ZonePolicy(), Slot(ForDestination, ZoneID)))
            == Ok(One(Some("7"), Some(Reference("lan", None)), None))
  {
    LanIs(Zone);
  }
}
