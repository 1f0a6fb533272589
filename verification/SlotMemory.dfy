/**
 A reference slot on the heap: the three Go fields `X`, `XRef` (or `XRefs`) and `XSelector`, kept together, and the
 assignments that store a resolver's answer in them.
 */
module SlotMemory {
  import opened Wrappers
  import opened References
  import opened Memory

  datatype SingleSlot = SingleSlot(id: Cell?<string>, ref: Cell?<Reference>, selector: Cell?<Selector>)

  datatype MultiSlot = MultiSlot(ids: Slice?<Cell?<string>>, refs: Slice?<Reference>, selector: Cell?<Selector>)

  function SingleView(s: SingleSlot): SlotValue {
    One(Deref(s.id), Deref(s.ref), Deref(s.selector))
  }

  function MultiView(s: MultiSlot): SlotValue {
    Many(ListValue(s.ids), ArrayValue(s.refs), Deref(s.selector))
  }

  function SinglePointers(s: SingleSlot): Targets {
    Pointer(s.id) + Pointer(s.ref) + Pointer(s.selector)
  }

  function MultiPointers(s: MultiSlot): Targets {
    ListPointers(s.ids) + ArrayPointer(s.refs) + Pointer(s.selector)
  }

  // ---- resolving ----

  method NewPointer(v: string) returns (p: Cell?<string>)
    ensures Deref(p) == ToPtrValue(v)
    ensures p != null ==> fresh(p)
  {
    if v == "" {
      p := null;
    } else {
      p := new Cell(v);
    }
  }

  /** reference.ToPtrValues. */
  method NewPointers(vs: seq<string>) returns (out: Slice<Cell?<string>>)
    ensures fresh(out) && ListValue(out) == Some(ToPtrValues(vs))
  {
    var pointers: seq<Cell?<string>> := [];
    for i := 0 to |vs|
      invariant |pointers| == i && forall k :: 0 <= k < i ==> Deref(pointers[k]) == ToPtrValue(vs[k])
    {
      var p := NewPointer(vs[i]);
      pointers := pointers + [p];
    }
    out := new Slice(pointers);
    assert DerefAll(pointers) == ToPtrValues(vs);
  }

  /** `rsp, err = r.Resolve(…)` and the two assignments that follow when there is no error. */
  method ResolveSingle(resolver: Resolver, to: Kind, namespace: string, slot: SingleSlot)
      returns (r: Result<SingleSlot, Error>)
    ensures ResolveSlot(resolver, to, namespace, SingleView(slot))
            == match r case Ok(s) => Ok(SingleView(s)) case Err(e) => Err(e)
  {
    var rsp := resolver.one(SlotRequest(to, namespace, SingleView(slot)));
    if rsp.Err? {
      return Err(rsp.error);
    }
    var id := NewPointer(rsp.value.resolvedValue);
    var ref: Cell?<Reference> := null;
    if rsp.value.resolvedReference.Some? {
      ref := new Cell(rsp.value.resolvedReference.value);
    }
    return Ok(slot.(id := id, ref := ref));
  }

  /** `mrsp, err = r.ResolveMultiple(…)` and the two assignments that follow when there is no error. */
  method ResolveMulti(resolver: Resolver, to: Kind, namespace: string, slot: MultiSlot)
      returns (r: Result<MultiSlot, Error>)
    ensures ResolveSlot(resolver, to, namespace, MultiView(slot))
            == match r case Ok(s) => Ok(MultiView(s)) case Err(e) => Err(e)
  {
    var mrsp := resolver.many(SlotMultiRequest(to, namespace, MultiView(slot)));
    if mrsp.Err? {
      return Err(mrsp.error);
    }
    var ids := NewPointers(mrsp.value.resolvedValues);
    var refs: Slice?<Reference> := null;
    if mrsp.value.resolvedReferences.Some? {
      refs := new Slice(mrsp.value.resolvedReferences.value);
    }
    return Ok(slot.(ids := ids, refs := refs));
  }

  // ---- what values and targets say ----

  lemma SingleIs(s: SingleSlot)
    ensures SingleView(s) == One(Deref(s.id), Deref(s.ref), Deref(s.selector))
    ensures SinglePointers(s) == Pointer(s.id) + Pointer(s.ref) + Pointer(s.selector)
  {
  }

  lemma MultiIs(s: MultiSlot)
    ensures MultiView(s) == Many(ListValue(s.ids), ArrayValue(s.refs), Deref(s.selector))
    ensures MultiPointers(s) == ListPointers(s.ids) + ArrayPointer(s.refs) + Pointer(s.selector)
  {
  }

  predicate AlikeSingle(s: SingleSlot, t: SingleSlot) {
    AlikeCells(s.id, t.id) && AlikeCells(s.ref, t.ref) && AlikeCells(s.selector, t.selector)
  }

  predicate AlikeMulti(s: MultiSlot, t: MultiSlot) {
    AlikeLists(s.ids, t.ids) && AlikeArrays(s.refs, t.refs) && AlikeCells(s.selector, t.selector)
  }

  lemma SlotsTell(s: SingleSlot, t: SingleSlot, m: MultiSlot, n: MultiSlot)
    ensures SingleView(s) == SingleView(t) <==> AlikeSingle(s, t)
    ensures MultiView(m) == MultiView(n) <==> AlikeMulti(m, n)
  {
    CellsTell(s.id, t.id);
    CellsTell(s.ref, t.ref);
    CellsTell(s.selector, t.selector);
    ListsTell(m.ids, n.ids);
    ArraysTell(m.refs, n.refs);
    CellsTell(m.selector, n.selector);
  }
}
