/**
 Go pointers and slices on the heap. A pointer is a nullable cell and a slice a nullable object, so that a nil
 slice and an empty one differ and sharing can be told from copying. Cells and id lists are filled when they are
 allocated: the modelled code replaces pointers and lists but never assigns through an old one.
 */
module Memory {
  import opened Wrappers

  /** The target of a `*string`, `*bool`, `*float64` or of a pointer to a struct. */
  class Cell<T> {
    const value: T

    constructor (value: T)
      ensures this.value == value
    {
      this.value := value;
    }
  }

  /** The backing array of a slice of pointers or of plain values. */
  class Slice<T> {
    const elements: seq<T>

    constructor (elements: seq<T>)
      ensures this.elements == elements
    {
      this.elements := elements;
    }
  }

  function Deref<T>(p: Cell?<T>): Option<T> {
    if p == null then None else Some(p.value)
  }

  /** The targets of pointer slots, each counted once for every slot that leads to it. */
  type Targets = multiset<object>

  /** No two pointer slots lead to the same object. */
  ghost predicate Unshared(targets: Targets) {
    forall o | o in targets :: targets[o] == 1
  }

  function Pointer<T>(p: Cell?<T>): Targets {
    if p == null then multiset{} else multiset{p as object}
  }

  // ---- slices of pointers ----

  function DerefAll<T>(s: seq<Cell?<T>>): seq<Option<T>> {
    seq(|s|, i requires 0 <= i < |s| => Deref(s[i]))
  }

  function Pointers<T>(s: seq<Cell?<T>>): Targets {
    if s == [] then multiset{} else Pointers(s[..|s| - 1]) + Pointer(s[|s| - 1])
  }

  function ListValue<T>(a: Slice?<Cell?<T>>): Option<seq<Option<T>>> {
    if a == null then None else Some(DerefAll(a.elements))
  }

  function ListPointers<T>(a: Slice?<Cell?<T>>): Targets {
    if a == null then multiset{} else multiset{a as object} + Pointers(a.elements)
  }

  // ---- slices of values ----

  function ArrayValue<T>(a: Slice?<T>): Option<seq<T>> {
    if a == null then None else Some(a.elements)
  }

  function ArrayPointer<T>(a: Slice?<T>): Targets {
    if a == null then multiset{} else multiset{a as object}
  }

  lemma UnsharedJoin(a: Targets, b: Targets)
    requires Unshared(a) && Unshared(b) && forall o :: o in b ==> o !in a
    ensures Unshared(a + b)
  {
  }

  // ---- deep copies of the leaves ----

  /** `*out = new(T); **out = **in`, for a non-nil pointer. */
  method CopyCell<T>(p: Cell?<T>) returns (q: Cell?<T>)
    ensures Deref(q) == Deref(p)
    ensures Unshared(Pointer(q)) && forall o :: o in Pointer(q) ==> fresh(o) && allocated(o)
  {
    if p == null {
      q := null;
    } else {
      q := new Cell(p.value);
    }
  }

  /** A slice of pointers: a new backing array, and a new cell for each element that is not nil. */
  method CopyList<T>(source: Slice?<Cell?<T>>) returns (out: Slice?<Cell?<T>>)
    ensures ListValue(out) == ListValue(source)
    ensures Unshared(ListPointers(out)) && forall o :: o in ListPointers(out) ==> fresh(o) && allocated(o)
  {
    if source == null {
      return null;
    }
    var copied: seq<Cell?<T>> := [];
    var i := 0;
    while i < |source.elements|
      invariant 0 <= i <= |source.elements| && |copied| == i
      invariant forall k :: 0 <= k < i ==> Deref(copied[k]) == Deref(source.elements[k])
      invariant Unshared(Pointers(copied)) && forall o :: o in Pointers(copied) ==> fresh(o) && allocated(o)
    {
      var cell := CopyCell(source.elements[i]);
      UnsharedJoin(Pointers(copied), Pointer(cell));
      assert (copied + [cell])[..|copied|] == copied;
      copied := copied + [cell];
      i := i + 1;
    }
    out := new Slice(copied);
    assert DerefAll(copied) == DerefAll(source.elements);
    UnsharedJoin(multiset{out as object}, Pointers(copied));
  }

  /** A slice of structs that hold no pointers of interest: a new backing array. */
  method CopyArray<T>(source: Slice?<T>) returns (out: Slice?<T>)
    ensures ArrayValue(out) == ArrayValue(source)
    ensures Unshared(ArrayPointer(out)) && forall o :: o in ArrayPointer(out) ==> fresh(o) && allocated(o)
  {
    if source == null {
      return null;
    }
    out := new Slice(source.elements);
  }

  // ---- what values and targets say ----

  lemma DerefIs<T>(p: Cell?<T>)
    ensures Deref(p) == None <==> p == null
    ensures p != null ==> Deref(p) == Some(p.value)
  {
  }

  lemma ListValueIs<T>(a: Slice?<Cell?<T>>)
    ensures ListValue(a) == None <==> a == null
    ensures a != null ==> |ListValue(a).value| == |a.elements|
    ensures a != null ==> forall k :: 0 <= k < |a.elements| ==>
              && (ListValue(a).value[k] == None <==> a.elements[k] == null)
              && (a.elements[k] != null ==> ListValue(a).value[k] == Some(a.elements[k].value))
  {
  }

  lemma ArrayValueIs<T>(a: Slice?<T>)
    ensures ArrayValue(a) == None <==> a == null
    ensures a != null ==> ArrayValue(a) == Some(a.elements)
  {
  }

  /** Nil both, or two pointers to the same value. */
  predicate AlikeCells<T(==)>(p: Cell?<T>, q: Cell?<T>) {
    if p == null || q == null then p == null && q == null else p.value == q.value
  }

  /** Nil both, or of one length with nil elements in the same places and the same values elsewhere. */
  predicate AlikeLists<T(==)>(a: Slice?<Cell?<T>>, b: Slice?<Cell?<T>>) {
    if a == null || b == null then a == null && b == null
    else |a.elements| == |b.elements| && forall k :: 0 <= k < |a.elements| ==> AlikeCells(a.elements[k], b.elements[k])
  }

  predicate AlikeArrays<T(==)>(a: Slice?<T>, b: Slice?<T>) {
    if a == null || b == null then a == null && b == null else a.elements == b.elements
  }

  /** Values are equal exactly if what they are read from is alike. */
  lemma CellsTell<T>(p: Cell?<T>, q: Cell?<T>)
    ensures Deref(p) == Deref(q) <==> AlikeCells(p, q)
    ensures AlikeCells(p, q) <==> ((p == null <==> q == null) && (p != null && q != null ==> p.value == q.value))
  {
  }

  lemma ListsTell<T>(a: Slice?<Cell?<T>>, b: Slice?<Cell?<T>>)
    ensures ListValue(a) == ListValue(b) <==> AlikeLists(a, b)
    ensures AlikeLists(a, b)
            <==> && (a == null <==> b == null)
                 && (a != null && b != null ==>
                       && |a.elements| == |b.elements|
                       && forall k :: 0 <= k < |a.elements| ==>
                            && (a.elements[k] == null <==> b.elements[k] == null)
                            && (a.elements[k] != null && b.elements[k] != null
                                ==> a.elements[k].value == b.elements[k].value))
  {
    if a != null && b != null {
      if ListValue(a) == ListValue(b) {
        forall k | 0 <= k < |a.elements| ensures AlikeCells(a.elements[k], b.elements[k]) {
          assert DerefAll(a.elements)[k] == DerefAll(b.elements)[k];
        }
      }
      if AlikeLists(a, b) {
        assert DerefAll(a.elements) == DerefAll(b.elements);
      }
    }
  }

  lemma ArraysTell<T>(a: Slice?<T>, b: Slice?<T>)
    ensures ArrayValue(a) == ArrayValue(b) <==> AlikeArrays(a, b)
    ensures AlikeArrays(a, b)
            <==> (a == null <==> b == null) && (a != null && b != null ==> a.elements == b.elements)
  {
  }

  /** The targets count every pointer that is not nil. */
  lemma PointerIs<T>(p: Cell?<T>, o: object)
    ensures Pointer(p)[o] == if p == o then 1 else 0
  {
  }

  lemma ArrayPointerIs<T>(a: Slice?<T>, o: object)
    ensures ArrayPointer(a)[o] == if a == o then 1 else 0
  {
  }

  lemma {:induction false} PointersHold<T>(s: seq<Cell?<T>>, i: nat, j: nat)
    requires i < |s| && j < |s|
    ensures Pointer(s[i]) <= Pointers(s)
    ensures i != j ==> Pointer(s[i]) + Pointer(s[j]) <= Pointers(s)
    decreases |s|
  {
    hide Pointer;
    var init := s[..|s| - 1];
    assert Pointers(s) == Pointers(init) + Pointer(s[|s| - 1]);
    if i < |init| && j < |init| {
      PointersHold(init, i, j);
    } else if i < |init| {
      PointersHold(init, i, i);
    } else if j < |init| {
      PointersHold(init, j, j);
    }
  }

  /** In an unshared list no two elements are the same pointer, and none is missing among the targets. */
  lemma UnsharedList<T>(a: Slice?<Cell?<T>>)
    requires a != null && Unshared(ListPointers(a))
    ensures a in ListPointers(a)
    ensures forall i :: 0 <= i < |a.elements| && a.elements[i] != null ==> a.elements[i] in ListPointers(a)
    ensures forall i, j :: 0 <= i < j < |a.elements| && a.elements[i] != null ==> a.elements[i] != a.elements[j]
  {
    forall i | 0 <= i < |a.elements| && a.elements[i] != null ensures a.elements[i] in ListPointers(a) {
      PointersHold(a.elements, i, i);
      assert a.elements[i] in Pointer(a.elements[i]);
    }
    forall i, j | 0 <= i < j < |a.elements| && a.elements[i] != null ensures a.elements[i] != a.elements[j] {
      PointersHold(a.elements, i, j);
      var o: object := a.elements[i];
      assert ListPointers(a)[o] == 1;
      assert Pointers(a.elements)[o] >= (Pointer(a.elements[i]) + Pointer(a.elements[j]))[o];
    }
  }
}
