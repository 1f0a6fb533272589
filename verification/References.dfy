/**
 One reference slot of a managed resource and the library resolver that fills it. The resolver is a parameter:
 a deterministic function of the request for one state of the API server.
 */
module References {
  import opened Wrappers
  import opened Slots

  datatype Reference = Reference(name: string, policy: Option<string>)

  datatype Selector = Selector(matchLabels: map<string, string>)

  /** The kind of object a slot points to. */
  datatype Kind = Network | PortProfile | Group | Zone

  datatype Request = Request(to: Kind, namespace: string, currentValue: string, reference: Option<Reference>,
                             selector: Option<Selector>)

  datatype Response = Response(resolvedValue: string, resolvedReference: Option<Reference>)

  datatype MultiRequest = MultiRequest(to: Kind, namespace: string, currentValues: seq<string>,
                                       references: Option<seq<Reference>>, selector: Option<Selector>)

  datatype MultiResponse = MultiResponse(resolvedValues: seq<string>, resolvedReferences: Option<seq<Reference>>)

  type Error = string

  datatype Resolver = Resolver(one: Request -> Result<Response, Error>,
                               many: MultiRequest -> Result<MultiResponse, Error>)

  /** The contents of a slot: an id or a list of ids, the references they come from and the selector. */
  datatype SlotValue =
    | One(id: Option<string>, reference: Option<Reference>, selector: Option<Selector>)
    | Many(ids: Option<seq<Option<string>>>, references: Option<seq<Reference>>, selector: Option<Selector>)

  /** reference.FromPtrValue and ToPtrValue: nil stands for the empty string. */
  function FromPtrValue(p: Option<string>): string {
    match p case Some(v) => v case None => ""
  }

  function ToPtrValue(v: string): Option<string> {
    if v == "" then None else Some(v)
  }

  function FromPtrValues(ps: Option<seq<Option<string>>>): seq<string> {
    match ps
    case None => []
    case Some(s) => seq(|s|, i requires 0 <= i < |s| => FromPtrValue(s[i]))
  }

  function ToPtrValues(vs: seq<string>): seq<Option<string>> {
    seq(|vs|, i requires 0 <= i < |vs| => ToPtrValue(vs[i]))
  }

  function SlotRequest(to: Kind, namespace: string, slot: SlotValue): Request
    requires slot.One?
  {
    Request(to, namespace, FromPtrValue(slot.id), slot.reference, slot.selector)
  }

  function SlotMultiRequest(to: Kind, namespace: string, slot: SlotValue): MultiRequest
    requires slot.Many?
  {
    MultiRequest(to, namespace, FromPtrValues(slot.ids), slot.references, slot.selector)
  }

  /** One step of a generated resolver: build the request, ask, and store value and reference on success. */
  function ResolveSlot(resolver: Resolver, to: Kind, namespace: string, slot: SlotValue): Result<SlotValue, Error> {
    match slot
    case One(_, _, selector) =>
      (match resolver.one(SlotRequest(to, namespace, slot))
       case Ok(r) => Ok(One(ToPtrValue(r.resolvedValue), r.resolvedReference, selector))
       case Err(e) => Err(e))
    case Many(_, _, selector) =>
      (match resolver.many(SlotMultiRequest(to, namespace, slot))
       case Ok(r) => Ok(Many(Some(ToPtrValues(r.resolvedValues)), r.resolvedReferences, selector))
       case Err(e) => Err(e))
  }

  /**
   A single slot: the request asks for the current id, empty if nil, and names reference and selector; an answer
   leaves the id nil exactly if it is empty, and an error is passed on.
   */
  lemma OneResolved(resolver: Resolver, to: Kind, namespace: string, id: Option<string>, reference: Option<Reference>,
                    selector: Option<Selector>)
    ensures var current := if id == None then "" else id.value;
            var answer := resolver.one(Request(to, namespace, current, reference, selector));
            var r := ResolveSlot(resolver, to, namespace, One(id, reference, selector));
            && (answer.Ok? <==> r.Ok?) && (answer.Err? ==> r.error == answer.error)
            && (answer.Ok? ==>
                  && r.value.One? && r.value.reference == answer.value.resolvedReference && r.value.selector == selector
                  && (r.value.id == None <==> answer.value.resolvedValue == "")
                  && (r.value.id != None ==> r.value.id.value == answer.value.resolvedValue))
  {
  }

  /** A list: the same element by element, except that an answered list is never nil. */
  lemma ManyResolved(resolver: Resolver, to: Kind, namespace: string, ids: Option<seq<Option<string>>>,
                     references: Option<seq<Reference>>, selector: Option<Selector>, current: seq<string>)
    requires |current| == if ids == None then 0 else |ids.value|
    requires forall i :: 0 <= i < |current| ==> current[i] == if ids.value[i] == None then "" else ids.value[i].value
    ensures var answer := resolver.many(MultiRequest(to, namespace, current, references, selector));
            var r := ResolveSlot(resolver, to, namespace, Many(ids, references, selector));
            && (answer.Ok? <==> r.Ok?) && (answer.Err? ==> r.error == answer.error)
            && (answer.Ok? ==>
                  && r.value.Many? && r.value.references == answer.value.resolvedReferences
                      && r.value.selector == selector
                  && r.value.ids != None && |r.value.ids.value| == |answer.value.resolvedValues|
                  && forall i :: 0 <= i < |r.value.ids.value| ==>
                       && (r.value.ids.value[i] == None <==> answer.value.resolvedValues[i] == "")
                       && (r.value.ids.value[i] != None
                           ==> r.value.ids.value[i].value == answer.value.resolvedValues[i]))
  {
    assert FromPtrValues(ids) == current;
  }

  // ---- resolvers over time ----

  /**
   Where `single` answers for a slot, `r` stands by the answer: asked for the slot as it is, or as it is once the
   answer is stored, it fails or answers the same. No other request matters.
   */
  ghost predicate StandsBy(r: Resolver, single: Resolver, to: Kind, namespace: string, slot: SlotValue) {
    match slot
    case One(_, _, _) =>
      var req := SlotRequest(to, namespace, slot);
      single.one(req).Ok? ==>
        && (r.one(req).Ok? ==> r.one(req) == single.one(req))
        && var settled := r.one(Settled(req, single.one(req).value));
           settled.Ok? ==> settled == single.one(req)
    case Many(_, _, _) =>
      var req := SlotMultiRequest(to, namespace, slot);
      single.many(req).Ok? ==>
        && (r.many(req).Ok? ==> r.many(req) == single.many(req))
        && var settled := r.many(SettledMulti(req, single.many(req).value));
           settled.Ok? ==> settled == single.many(req)
  }

  /** The request that the next reconcile builds from a stored answer. */
  function Settled(req: Request, r: Response): Request {
    req.(currentValue := r.resolvedValue, reference := r.resolvedReference)
  }

  function SettledMulti(req: MultiRequest, r: MultiResponse): MultiRequest {
    req.(currentValues := r.resolvedValues, references := r.resolvedReferences)
  }

  /** Storing an answer and reading it back for the next request loses nothing. */
  lemma PtrValuesRoundTrip(vs: seq<string>)
    ensures FromPtrValues(Some(ToPtrValues(vs))) == vs
  {
  }

  /** Standing by an answer to a request is standing by what is stored in the slot. */
  lemma SlotStandsBy(r: Resolver, single: Resolver, to: Kind, namespace: string, slot: SlotValue)
    requires StandsBy(r, single, to, namespace, slot) && ResolveSlot(single, to, namespace, slot).Ok?
    ensures var answer := ResolveSlot(single, to, namespace, slot).value;
            && FailsOrGives(ResolveSlot(r, to, namespace, slot), answer)
            && FailsOrGives(ResolveSlot(r, to, namespace, answer), answer)
  {
    var answer := ResolveSlot(single, to, namespace, slot).value;
    match slot
    case One(_, _, _) =>
      var req := SlotRequest(to, namespace, slot);
      assert SlotRequest(to, namespace, answer) == Settled(req, single.one(req).value);
    case Many(_, _, _) =>
      var req := SlotMultiRequest(to, namespace, slot);
      PtrValuesRoundTrip(single.many(req).value.resolvedValues);
      assert SlotMultiRequest(to, namespace, answer) == SettledMulti(req, single.many(req).value);
  }
}
