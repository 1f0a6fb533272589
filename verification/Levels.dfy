/**
 The rewriting of write-only descriptions on schema trees as values: what one visit of `describeWriteOnly` does,
 what any order of visits at any depth comes to, and the pointwise specification both agree with. The naming
 convention, the generated texts and the sentence filter are parameters here; module Descriptions supplies them.
 */
module Levels {
  import opened Wrappers

  datatype Level = Level(attributes: map<string, Attribute>)

  datatype Attribute = Attribute(description: string, sensitive: bool, element: Element)

  /** A schema's `Elem`: only a nested resource is descended into. */
  datatype Element = NoElement | SchemaElement(attribute: Attribute) | ResourceElement(level: Level)

  /** What a visit makes of an attribute: nothing, a new text, or a new text and a filtered base. */
  datatype Kind = Ordinary | Counter(text: string) | WriteOnly(text: string, base: string)

  /**
   `kind` classifies a name among its siblings and their sensitivity, `form` is the write-only name of a base, and
   `filter` drops the sentences of a text that name an attribute.
   */
  datatype Rules = Rules(kind: (map<string, bool>, string) -> Kind, form: string -> string,
                         filter: (string, string) -> string)

  /** What confluence needs of the rules, at every level of the tree. */
  ghost predicate Sound(rules: Rules) {
    && (forall siblings, name :: SoundAt(rules, siblings, name))
    && (forall text, name :: rules.filter(rules.filter(text, name), name) == rules.filter(text, name))
  }

  ghost predicate SoundAt(rules: Rules, siblings: map<string, bool>, name: string) {
    var kind := rules.kind(siblings, name);
    && (kind.WriteOnly? ==> kind.base in siblings && kind.base != name && name == rules.form(kind.base))
    && (rules.kind(siblings, rules.form(name)).WriteOnly? ==> rules.kind(siblings, rules.form(name)).base == name)
    && (!kind.Ordinary? ==> rules.filter(kind.text, rules.form(name)) == kind.text)
  }

  // ---- the specification ----

  /** The part of a level that no visit changes and every visit reads. */
  function Siblings(level: Level): map<string, bool> {
    map name | name in level.attributes :: level.attributes[name].sensitive
  }

  function KindOf(rules: Rules, level: Level, name: string): Kind {
    rules.kind(Siblings(level), name)
  }

  /** Whether `name` has a write-only form among its siblings. */
  predicate HasForm(rules: Rules, level: Level, name: string) {
    rules.form(name) in level.attributes && KindOf(rules, level, rules.form(name)).WriteOnly?
  }

  /** The final description of an attribute: its generated text, or else its original text without the advice. */
  function Described(rules: Rules, level: Level, name: string): string
    requires name in level.attributes
  {
    if !KindOf(rules, level, name).Ordinary? then
      KindOf(rules, level, name).text
    else if HasForm(rules, level, name) then
      rules.filter(level.attributes[name].description, rules.form(name))
    else
      level.attributes[name].description
  }

  function Rewritten(rules: Rules, level: Level): Level {
    Level(map name | name in level.attributes ::
            level.attributes[name].(description := Described(rules, level, name),
                                    element := RewrittenElement(rules, level.attributes[name].element)))
  }

  function RewrittenElement(rules: Rules, element: Element): Element {
    match element
    case ResourceElement(nested) => ResourceElement(Rewritten(rules, nested))
    case _ => element
  }

  // ---- one visit ----

  function WithDescription(level: Level, name: string, description: string): Level
    requires name in level.attributes
  {
    Level(level.attributes[name := level.attributes[name].(description := description)])
  }

  function WithElement(level: Level, name: string, element: Element): Level
    requires name in level.attributes
  {
    Level(level.attributes[name := level.attributes[name].(element := element)])
  }

  /** The loop body for one attribute whose nested resource, if any, has become `element`. */
  function Visit(rules: Rules, level: Level, name: string, element: Element): Level
    requires name in level.attributes
  {
    var below := WithElement(level, name, element);
    match KindOf(rules, level, name)
    case Ordinary => below
    case Counter(text) => WithDescription(below, name, text)
    case WriteOnly(text, base) =>
      var own := WithDescription(below, name, text);
      if base in own.attributes then
        WithDescription(own, base, rules.filter(own.attributes[base].description, name))
      else
        own
  }

  // ---- the state after some visits ----

  /** An attribute once exactly the names in `visited` have been visited, in whatever order. */
  function PartlyAt(rules: Rules, level: Level, visited: set<string>, name: string): Attribute
    requires name in level.attributes
  {
    var original := level.attributes[name];
    var element := if name in visited then RewrittenElement(rules, original.element) else original.element;
    if name in visited && !KindOf(rules, level, name).Ordinary? then
      Attribute(KindOf(rules, level, name).text, original.sensitive, element)
    else if rules.form(name) in visited && HasForm(rules, level, name) then
      Attribute(rules.filter(original.description, rules.form(name)), original.sensitive, element)
    else
      Attribute(original.description, original.sensitive, element)
  }

  ghost predicate After(rules: Rules, level: Level, visited: set<string>, current: Level) {
    && current.attributes.Keys == level.attributes.Keys
    && forall k | k in level.attributes :: current.attributes[k] == PartlyAt(rules, level, visited, k)
  }

  lemma SiblingsKept(rules: Rules, level: Level, visited: set<string>, current: Level)
    requires After(rules, level, visited, current)
    ensures Siblings(current) == Siblings(level)
  {
  }

  /** One more visit, from any reachable state, only adds its name to the visited set. */
  lemma VisitStep(rules: Rules, level: Level, visited: set<string>, current: Level, name: string)
    requires Sound(rules) && After(rules, level, visited, current) && name in level.attributes && name !in visited
    ensures After(rules, level, visited + {name},
                  Visit(rules, current, name, RewrittenElement(rules, level.attributes[name].element)))
  {
    hide Sound, Visit, PartlyAt, RewrittenElement;
    var element := RewrittenElement(rules, level.attributes[name].element);
    var next := Visit(rules, current, name, element);
    VisitKeys(rules, current, name, element);
    forall k | k in level.attributes ensures next.attributes[k] == PartlyAt(rules, level, visited + {name}, k) {
      if k == name {
        VisitsOwn(rules, level, visited, current, k, element);
      } else {
        VisitsOther(rules, level, visited, current, name, element, k);
      }
    }
  }

  lemma VisitKeys(rules: Rules, level: Level, name: string, element: Element)
    requires name in level.attributes
    ensures Visit(rules, level, name, element).attributes.Keys == level.attributes.Keys
  {
  }

  /** A level that differs from another in one element only. */
  lemma OnlyElementDiffers(level: Level, name: string, element: Element, other: Level)
    requires name in level.attributes && other.attributes.Keys == level.attributes.Keys
    requires other.attributes[name] == level.attributes[name].(element := element)
    requires forall k | k in level.attributes && k != name :: other.attributes[k] == level.attributes[k]
    ensures other == WithElement(level, name, element)
  {
    assert other.attributes == WithElement(level, name, element).attributes;
  }

  lemma ElementSiblings(level: Level, name: string, element: Element)
    requires name in level.attributes
    ensures Siblings(WithElement(level, name, element)) == Siblings(level)
  {
  }

  lemma VisitsOwn(rules: Rules, level: Level, visited: set<string>, current: Level, name: string, element: Element)
    requires Sound(rules) && After(rules, level, visited, current) && name in level.attributes && name !in visited
    requires element == RewrittenElement(rules, level.attributes[name].element)
    ensures Visit(rules, current, name, element).attributes[name] == PartlyAt(rules, level, visited + {name}, name)
  {
    SiblingsKept(rules, level, visited, current);
    assert SoundAt(rules, Siblings(level), name);
    assert SoundAt(rules, Siblings(level), rules.form(name));
  }

  lemma VisitsOther(rules: Rules, level: Level, visited: set<string>, current: Level, name: string, element: Element,
                    k: string)
    requires Sound(rules) && After(rules, level, visited, current) && name in level.attributes && name !in visited
    requires k in level.attributes && k != name
    ensures var next := Visit(rules, current, name, element);
            k in next.attributes && next.attributes[k] == PartlyAt(rules, level, visited + {name}, k)
  {
    SiblingsKept(rules, level, visited, current);
    var kind := KindOf(rules, level, name);
    if kind.WriteOnly? && kind.base == k {
      assert Visit(rules, current, name, element).attributes[k]
          == current.attributes[k].(description := rules.filter(current.attributes[k].description, name));
      FilterStep(rules, level, visited, name, k);
    } else {
      assert Visit(rules, current, name, element).attributes[k] == current.attributes[k];
      NoFilterStep(rules, level, visited, name, k);
    }
  }

  /** Filtering the base commutes with the base's own visit. */
  lemma FilterStep(rules: Rules, level: Level, visited: set<string>, name: string, k: string)
    requires Sound(rules) && name in level.attributes && k in level.attributes && k != name && name !in visited
    requires KindOf(rules, level, name).WriteOnly? && KindOf(rules, level, name).base == k
    ensures var was := PartlyAt(rules, level, visited, k);
            was.(description := rules.filter(was.description, name)) == PartlyAt(rules, level, visited + {name}, k)
  {
    assert SoundAt(rules, Siblings(level), name);
    assert SoundAt(rules, Siblings(level), k);
  }

  lemma NoFilterStep(rules: Rules, level: Level, visited: set<string>, name: string, k: string)
    requires Sound(rules) && name in level.attributes && k in level.attributes && k != name
    requires KindOf(rules, level, name).WriteOnly? ==> KindOf(rules, level, name).base != k
    ensures PartlyAt(rules, level, visited, k) == PartlyAt(rules, level, visited + {name}, k)
  {
    assert SoundAt(rules, Siblings(level), k);
  }

  lemma NothingVisited(rules: Rules, level: Level)
    ensures After(rules, level, {}, level)
  {
  }

  /** When everything has been visited, the specification is met. */
  lemma AllVisited(rules: Rules, level: Level, current: Level)
    requires After(rules, level, level.attributes.Keys, current)
    ensures current == Rewritten(rules, level)
  {
    assert current.attributes == Rewritten(rules, level).attributes;
  }

  // ---- the same, told by what is left to visit ----

  ghost predicate Pending(rules: Rules, level: Level, unvisited: set<string>, current: Level) {
    unvisited <= level.attributes.Keys && After(rules, level, level.attributes.Keys - unvisited, current)
  }

  lemma PendingAll(rules: Rules, level: Level)
    ensures Pending(rules, level, level.attributes.Keys, level)
  {
    assert level.attributes.Keys - level.attributes.Keys == {};
  }

  lemma PendingLess(rules: Rules, level: Level, unvisited: set<string>, current: Level, name: string)
    requires Sound(rules) && Pending(rules, level, unvisited, current) && name in unvisited
    ensures name in current.attributes
    ensures Pending(rules, level, unvisited - {name},
                    Visit(rules, current, name, RewrittenElement(rules, current.attributes[name].element)))
  {
    var visited := level.attributes.Keys - unvisited;
    VisitStep(rules, level, visited, current, name);
    assert current.attributes[name].element == level.attributes[name].element;
    assert level.attributes.Keys - (unvisited - {name}) == visited + {name};
  }

  lemma PendingNone(rules: Rules, level: Level, current: Level)
    requires Pending(rules, level, {}, current)
    ensures current == Rewritten(rules, level)
  {
    assert level.attributes.Keys - {} == level.attributes.Keys;
    AllVisited(rules, level, current);
  }

  // ---- visiting orders at every depth ----

  /** One way the map ranges can go: an order for this level and a schedule for each nested resource. */
  datatype Schedule = Schedule(order: seq<string>, nested: map<string, Schedule>)

  predicate Distinct(order: seq<string>) {
    forall i, j :: 0 <= i < j < |order| ==> order[i] != order[j]
  }

  function Names(order: seq<string>): set<string> {
    set name | name in order
  }

  /** Each range goes through every key of its map once. */
  ghost predicate Complete(level: Level, schedule: Schedule)
    decreases schedule
  {
    && Distinct(schedule.order)
    && (forall name :: name in schedule.order <==> name in level.attributes)
    && forall name | name in level.attributes && level.attributes[name].element.ResourceElement? ::
         name in schedule.nested && Complete(level.attributes[name].element.level, schedule.nested[name])
  }

  function Run(rules: Rules, level: Level, schedule: Schedule): Level
    decreases schedule, 1, 0
  {
    RunFrom(rules, level, schedule, 0)
  }

  function RunFrom(rules: Rules, level: Level, schedule: Schedule, i: nat): Level
    decreases schedule, 0, |schedule.order| - i
  {
    if i >= |schedule.order| then
      level
    else
      var name := schedule.order[i];
      if name !in level.attributes then RunFrom(rules, level, schedule, i + 1) else
      var element := RunElement(rules, level.attributes[name].element, schedule, name);
      RunFrom(rules, Visit(rules, level, name, element), schedule, i + 1)
  }

  function RunElement(rules: Rules, element: Element, schedule: Schedule, name: string): Element
    decreases schedule, 0, 0
  {
    if element.ResourceElement? && name in schedule.nested then
      ResourceElement(Run(rules, element.level, schedule.nested[name]))
    else
      element
  }

  /** A run visits the names of its order one after the other, each after its nested resource has been run. */
  lemma RunIs(rules: Rules, level: Level, schedule: Schedule, element: Element, name: string)
    ensures Run(rules, level, schedule) == RunFrom(rules, level, schedule, 0)
    ensures RunFrom(rules, level, schedule, |schedule.order|) == level
    ensures !element.ResourceElement? ==> RunElement(rules, element, schedule, name) == element
    ensures element.ResourceElement? && name in schedule.nested ==>
              RunElement(rules, element, schedule, name)
                  == ResourceElement(Run(rules, element.level, schedule.nested[name]))
  {
  }

  /** There is a way to go through every tree. */
  ghost function SomeSchedule(level: Level): Schedule {
    Schedule(SomeOrder(level.attributes.Keys),
             map name | name in level.attributes && level.attributes[name].element.ResourceElement? ::
               SomeSchedule(level.attributes[name].element.level))
  }

  ghost function SomeOrder(names: set<string>): (order: seq<string>)
    ensures Distinct(order) && forall name :: name in order <==> name in names
    decreases |names|
  {
    if names == {} then []
    else
      var name :| name in names;
      [name] + SomeOrder(names - {name})
  }

  lemma {:induction false} SomeScheduleComplete(level: Level)
    ensures Complete(level, SomeSchedule(level))
  {
    forall name | name in level.attributes && level.attributes[name].element.ResourceElement?
      ensures Complete(level.attributes[name].element.level, SomeSchedule(level).nested[name])
    {
      SomeScheduleComplete(level.attributes[name].element.level);
    }
  }

  /** Confluence: every order of visits, at every depth, ends in the specified tree. */
  lemma {:induction false} AnyOrder(rules: Rules, level: Level, schedule: Schedule)
    requires Sound(rules) && Complete(level, schedule)
    ensures Run(rules, level, schedule) == Rewritten(rules, level)
    decreases schedule, 1, 0
  {
    NothingVisited(rules, level);
    assert Names(schedule.order[..0]) == {};
    AnyOrderFrom(rules, level, schedule, 0, level);
  }

  lemma {:induction false} AnyOrderFrom(rules: Rules, level: Level, schedule: Schedule, i: nat, current: Level)
    requires Sound(rules) && Complete(level, schedule) && i <= |schedule.order|
    requires After(rules, level, Names(schedule.order[..i]), current)
    ensures RunFrom(rules, current, schedule, i) == Rewritten(rules, level)
    decreases schedule, 0, |schedule.order| - i
  {
    var order := schedule.order;
    if i == |order| {
      assert order[..i] == order;
      assert Names(order) == level.attributes.Keys;
      AllVisited(rules, level, current);
    } else {
      var name, visited := order[i], Names(order[..i]);
      assert name in order;
      var element := level.attributes[name].element;
      if element.ResourceElement? {
        AnyOrder(rules, element.level, schedule.nested[name]);
      }
      VisitStep(rules, level, visited, current, name);
      NamesExtend(order, i);
      var next := Visit(rules, current, name, RewrittenElement(rules, element));
      AnyOrderFrom(rules, level, schedule, i + 1, next);
      RunUnfolds(rules, current, schedule, i);
    }
  }

  lemma RunUnfolds(rules: Rules, current: Level, schedule: Schedule, i: nat)
    requires i < |schedule.order| && schedule.order[i] in current.attributes
    ensures var name := schedule.order[i];
            RunFrom(rules, current, schedule, i)
            == var element := RunElement(rules, current.attributes[name].element, schedule, name);
               RunFrom(rules, Visit(rules, current, name, element), schedule, i + 1)
  {
  }

  lemma NamesExtend(order: seq<string>, i: nat)
    requires i < |order|
    ensures Names(order[..i + 1]) == Names(order[..i]) + {order[i]}
  {
    assert order[..i + 1] == order[..i] + [order[i]];
  }

  lemma OrderIrrelevant(rules: Rules, level: Level, one: Schedule, other: Schedule)
    requires Sound(rules) && Complete(level, one) && Complete(level, other)
    ensures Run(rules, level, one) == Run(rules, level, other)
  {
    AnyOrder(rules, level, one);
    AnyOrder(rules, level, other);
  }

  // ---- what the result promises ----

  /** A second run changes nothing. */
  lemma {:induction false} Idempotent(rules: Rules, level: Level)
    requires Sound(rules)
    ensures Rewritten(rules, Rewritten(rules, level)) == Rewritten(rules, level)
    decreases level
  {
    var once := Rewritten(rules, level);
    var twice := Rewritten(rules, once);
    assert Siblings(once) == Siblings(level);
    forall k | k in level.attributes ensures twice.attributes[k] == once.attributes[k] {
      IdempotentElement(rules, level.attributes[k].element);
    }
    assert twice.attributes == once.attributes;
  }

  lemma {:induction false} IdempotentElement(rules: Rules, element: Element)
    requires Sound(rules)
    ensures RewrittenElement(rules, RewrittenElement(rules, element)) == RewrittenElement(rules, element)
    decreases element
  {
    match element
    case ResourceElement(nested) => Idempotent(rules, nested);
    case _ =>
  }

  /** The level reached by following nested resources along a path of attribute names. */
  function LevelAt(level: Level, path: seq<string>): Option<Level> {
    if path == [] then
      Some(level)
    else if path[0] in level.attributes && level.attributes[path[0]].element.ResourceElement? then
      LevelAt(level.attributes[path[0]].element.level, path[1..])
    else
      None
  }

  /** Paths lead through nested resources, and through nothing else. */
  lemma LevelAtStep(level: Level, name: string, path: seq<string>)
    ensures LevelAt(level, []) == Some(level)
    ensures LevelAt(level, [name] + path)
            == if name in level.attributes && level.attributes[name].element.ResourceElement?
               then LevelAt(level.attributes[name].element.level, path) else None
  {
    assert ([name] + path)[1..] == path;
  }

  /** The same rule holds at every depth, for exactly the levels reachable through nested resources. */
  lemma {:induction false} RewrittenAtDepth(rules: Rules, level: Level, path: seq<string>)
    ensures LevelAt(Rewritten(rules, level), path)
            == match LevelAt(level, path) case Some(l) => Some(Rewritten(rules, l)) case None => None
    decreases path
  {
    if path != [] && path[0] in level.attributes && level.attributes[path[0]].element.ResourceElement? {
      RewrittenAtDepth(rules, level.attributes[path[0]].element.level, path[1..]);
    }
  }
}
