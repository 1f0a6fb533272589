/**
 One level of schemas in which two names may lead to the same object. Without such sharing every order of the visits
 ends as specified; with it the order can decide the result.
 */
module Sharing {
  import opened Sentences
  import opened Naming
  import opened Levels
  import opened Descriptions

  /** A schema object is a number here; an attribute map leads from names to objects, not necessarily different ones. */
  datatype Store = Store(objects: map<string, nat>, descriptions: map<nat, string>, sensitive: map<nat, bool>)

  predicate Closed(s: Store) {
    forall name <- s.objects :: s.objects[name] in s.descriptions && s.objects[name] in s.sensitive
  }

  predicate Unshared(s: Store) {
    forall a, b :: a in s.objects && b in s.objects && s.objects[a] == s.objects[b] ==> a == b
  }

  function AsLevel(s: Store): Level
    requires Closed(s)
  {
    Level(map name | name in s.objects ::
            Attribute(s.descriptions[s.objects[name]], s.sensitive[s.objects[name]], NoElement))
  }

  function Assign(s: Store, name: string, description: string): (r: Store)
    requires Closed(s) && name in s.objects
    ensures Closed(r)
  {
    s.(descriptions := s.descriptions[s.objects[name] := description])
  }

  /** The loop body, assigning through the objects. */
  function VisitStore(style: Style, s: Store, name: string): (r: Store)
    requires Closed(s) && name in s.objects
    ensures Closed(r) && r.objects == s.objects
  {
    match Classify(style, Siblings(AsLevel(s)), name)
    case Ordinary => s
    case Counter(text) => Assign(s, name, text)
    case WriteOnly(text, base) =>
      var own := Assign(s, name, text);
      if base in own.objects then Assign(own, base, Filtered(own.descriptions[own.objects[base]], name)) else own
  }

  /** Without sharing, assigning through an object changes one name of the level only. */
  lemma AssignUnshared(s: Store, name: string, description: string)
    requires Closed(s) && Unshared(s) && name in s.objects
    ensures AsLevel(Assign(s, name, description)) == WithDescription(AsLevel(s), name, description)
  {
  }

  /** Without sharing, the loop body is the visit that every order may make. */
  lemma VisitUnshared(style: Style, s: Store, name: string)
    requires Closed(s) && Unshared(s) && name in s.objects
    ensures AsLevel(VisitStore(style, s, name)) == Visit(RulesOf(style), AsLevel(s), name, NoElement)
  {
    hide Classify, Filtered;
    assert WithElement(AsLevel(s), name, NoElement) == AsLevel(s);
    match Classify(style, Siblings(AsLevel(s)), name)
    case Ordinary =>
    case Counter(text) => AssignUnshared(s, name, text);
    case WriteOnly(text, base) =>
      AssignUnshared(s, name, text);
      if base in s.objects {
        var own := Assign(s, name, text);
        AssignUnshared(own, base, Filtered(own.descriptions[own.objects[base]], name));
      }
  }

  function RunStore(style: Style, s: Store, order: seq<string>): (r: Store)
    requires Closed(s) && forall name :: name in order ==> name in s.objects
    ensures Closed(r) && r.objects == s.objects
    decreases |order|
  {
    if order == [] then s else RunStore(style, VisitStore(style, s, order[0]), order[1..])
  }

  /** Without sharing, every order in which the map can be ranged over ends as specified. */
  lemma RunUnshared(style: Style, s: Store, order: seq<string>)
    requires Closed(s) && Unshared(s)
    requires Distinct(order) && forall name :: name in order <==> name in s.objects
    ensures AsLevel(RunStore(style, s, order)) == Rewritten(RulesOf(style), AsLevel(s))
  {
    RulesSound(style);
    PendingAll(RulesOf(style), AsLevel(s));
    assert AsLevel(s).attributes.Keys == Names(order);
    RunPending(style, s, s, order);
  }

  lemma {:induction false} RunPending(style: Style, start: Store, s: Store, order: seq<string>)
    requires Closed(start) && Closed(s) && Unshared(s)
    requires Distinct(order) && forall name :: name in order ==> name in s.objects
    requires Sound(RulesOf(style)) && Pending(RulesOf(style), AsLevel(start), Names(order), AsLevel(s))
    ensures AsLevel(RunStore(style, s, order)) == Rewritten(RulesOf(style), AsLevel(start))
    decreases |order|
  {
    hide RulesOf, Pending, Rewritten, Sound, VisitStore, Visit;
    if order == [] {
      assert Names(order) == {};
      PendingNone(RulesOf(style), AsLevel(start), AsLevel(s));
    } else {
      VisitUnshared(style, s, order[0]);
      PendingLess(RulesOf(style), AsLevel(start), Names(order), AsLevel(s), order[0]);
      assert Names(order[1..]) == Names(order) - {order[0]};
      RunPending(style, start, VisitStore(style, s, order[0]), order[1..]);
    }
  }

  /** The last visit of an attribute that is not its own base leaves its text, whatever came before. */
  lemma {:induction false} LastVisitWins(style: Style, s: Store, order: seq<string>, last: string)
    requires Closed(s) && (forall name :: name in order ==> name in s.objects) && last in s.objects
    requires var kind := Classify(style, Siblings(AsLevel(s)), last);
             kind.WriteOnly? && kind.base in s.objects && s.objects[kind.base] != s.objects[last]
    ensures RunStore(style, s, order + [last]).descriptions[s.objects[last]]
            == Classify(style, Siblings(AsLevel(s)), last).text
    decreases |order|
  {
    hide Classify, Filtered;
    if order == [] {
      assert (order + [last])[1..] == [];
    } else {
      assert (order + [last])[1..] == order[1..] + [last];
      var next := VisitStore(style, s, order[0]);
      assert Siblings(AsLevel(next)) == Siblings(AsLevel(s));
      LastVisitWins(style, next, order[1..], last);
    }
  }

  /** Two write-only names for one object. */
  function TwoForms(): Store {
    Store(map["x" := 0, "y" := 1, "x_wo" := 2, "y_wo" := 2], map[0 := "", 1 := "", 2 := ""],
          map[0 := false, 1 := false, 2 := false])
  }

  /** Two runs over the whole level with different ends. */
  lemma OrderMatters(style: Style)
    ensures var s, one, other := TwoForms(), ["x", "y", "y_wo", "x_wo"], ["x", "y", "x_wo", "y_wo"];
            && Closed(s) && s.objects["x_wo"] == s.objects["y_wo"]
            && Distinct(one) && Distinct(other) && Names(one) == Names(other) == s.objects.Keys
            && RunStore(style, s, one) != RunStore(style, s, other)
  {
    hide Classify, RunStore;
    var s, front, back := TwoForms(), ["x", "y", "y_wo"], ["x", "y", "x_wo"];
    TwoTexts(style);
    LastVisitWins(style, s, front, "x_wo");
    LastVisitWins(style, s, back, "y_wo");
    assert ["x", "y", "y_wo", "x_wo"] == front + ["x_wo"] && ["x", "y", "x_wo", "y_wo"] == back + ["y_wo"];
  }

  lemma TwoTexts(style: Style)
    ensures var s := TwoForms();
            && Closed(s)
            && var one, other := Classify(style, Siblings(AsLevel(s)), "x_wo"),
                Classify(style, Siblings(AsLevel(s)), "y_wo");
               one.WriteOnly? && one.base == "x" && other.WriteOnly? && other.base == "y" && one.text != other.text
  {
    hide Classify, WriteOnlyDescription, ApiFieldName;
    var siblings := Siblings(AsLevel(TwoForms()));
    assert "x" in siblings && "y" in siblings && !siblings["x"] && !siblings["y"];
    ClassifyForm(style, siblings, "x");
    ClassifyForm(style, siblings, "y");
    assert Form("x") == "x_wo" && Form("y") == "y_wo";
    TextsDiffer(style, ApiFieldName(style.camel, "x", false), ApiFieldName(style.camel, "y", false));
  }

  lemma TextsDiffer(style: Style, one: string, other: string)
    ensures WriteOnlyDescription(style.words, "x", one) != WriteOnlyDescription(style.words, "y", other)
  {
    var n := |style.words.equivalentOf| + 1;
    assert WriteOnlyDescription(style.words, "x", one)[n] == 'x'
        && WriteOnlyDescription(style.words, "y", other)[n] == 'y';
  }
}
