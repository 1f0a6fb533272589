/**
 `describeWriteOnly` of config/write_only.go on the heap: schemas are objects whose descriptions are assigned
 through the map entries of a level while the map is ranged over in an arbitrary order. A nested resource may hang
 off several attributes; it is then rewritten once for each of them.
 */
module WriteOnly {
  import opened Wrappers
  import opened Sentences
  import opened Naming
  import opened Levels
  import opened Descriptions

  /** A nested `*schema.Resource`, of which only the attribute map is read. */
  datatype Resource = Resource(Schema: Attributes)

  type Attributes = map<string, Schema>

  datatype Elem = NoElem | SchemaElem(schema: Schema) | ResourceElem(resource: Resource)

  class Schema {
    var Description: string
    var Sensitive: bool
    var Elem: Elem
    ghost const Height: nat  // more than that of every schema below this one

    constructor (description: string, sensitive: bool, elem: Elem, ghost height: nat)
      ensures Description == description && Sensitive == sensitive && Elem == elem && Height == height
    {
      Description, Sensitive, Elem, Height := description, sensitive, elem, height;
    }
  }

  // ---- the schemas at hand ----

  /** The attribute maps that can be descended into, and the schemas that only a Schema-typed `Elem` leads to. */
  datatype Graph = Graph(levels: set<Attributes>, below: set<Schema>)

  ghost function LevelObjects(g: Graph): set<Schema> {
    set level, k | level in g.levels && k in level :: level[k]
  }

  ghost predicate LinkedBelow(s: Schema, below: set<Schema>)
    reads s`Elem
  {
    match s.Elem
    case NoElem => true
    case SchemaElem(t) => t in below && t.Height < s.Height
    case ResourceElem(r) => forall k | k in r.Schema :: r.Schema[k] in below && r.Schema[k].Height < s.Height
  }

  ghost predicate Linked(s: Schema, g: Graph)
    reads s`Elem
  {
    match s.Elem
    case NoElem => true
    case SchemaElem(t) => t in g.below && t.Height < s.Height
    case ResourceElem(r) => r.Schema in g.levels && Under(r.Schema, s.Height)
  }

  ghost predicate Under(level: Attributes, bound: nat) {
    forall k | k in level :: level[k].Height < bound
  }

  /**
   Nothing is cyclic, and a schema object has one place: one name in one level, or below Schema-typed elements. The
   levels themselves may be shared.
   */
  ghost predicate Wellformed(g: Graph)
    reads LevelObjects(g)`Elem, g.below`Elem
  {
    && (forall s | s in g.below :: LinkedBelow(s, g.below))
    && (forall level, k | level in g.levels && k in level :: level[k] !in g.below && Linked(level[k], g))
    && (forall level, other, j, k | level in g.levels && other in g.levels && j in level && k in other
        && level[j] == other[k] ::
          level == other && j == k)
  }

  /** Different schemas with nothing below them make a level. */
  lemma PlainLevel(level: Attributes)
    requires forall k | k in level :: level[k].Elem == NoElem
    requires forall j, k | j in level && k in level && j != k :: level[j] != level[k]
    ensures Wellformed(Graph({level}, {}))
  {
  }

  /** A nested resource may hang off two attributes of a new level. */
  lemma SharedNested(g: Graph, nested: Attributes, one: Schema, other: Schema)
    requires Wellformed(g) && nested in g.levels && one != other
    requires one !in LevelObjects(g) + g.below && other !in LevelObjects(g) + g.below
    requires one.Elem == other.Elem == ResourceElem(Resource(nested)) && Under(nested, one.Height)
            && Under(nested, other.Height)
    ensures Wellformed(Graph(g.levels + {map["one" := one, "other" := other]}, g.below))
  {
    hide LinkedBelow, Under;
    var level: Attributes := map["one" := one, "other" := other];
    var h := Graph(g.levels + {level}, g.below);
    forall l, k | l in g.levels && k in l ensures l[k] !in h.below && Linked(l[k], h) && l[k] != one && l[k] != other {
      assert Linked(l[k], g) && l[k] in LevelObjects(g);
    }
    assert Linked(one, h) && Linked(other, h);
  }

  // ---- values ----

  /** The texts of one level. */
  ghost function Flat(level: Attributes): Level
    reads level.Values
  {
    Level(map k | k in level :: Attribute(level[k].Description, level[k].Sensitive, NoElement))
  }

  ghost function BelowView(s: Schema, below: set<Schema>): Attribute
    requires s in below && forall t | t in below :: LinkedBelow(t, below)
    reads below
    decreases s.Height
  {
    assert LinkedBelow(s, below);
    Attribute(s.Description, s.Sensitive,
              match s.Elem
              case NoElem => NoElement
              case SchemaElem(t) => SchemaElement(BelowView(t, below))
              case ResourceElem(r) => ResourceElement(Level(map k | k in r.Schema :: BelowView(r.Schema[k], below))))
  }

  /** The texts of all levels, and what lies below. */
  datatype Texts = Texts(levels: map<Attributes, Level>, below: map<Schema, Attribute>)

  ghost predicate Covers(g: Graph, texts: Texts) {
    && texts.levels.Keys == g.levels && texts.below.Keys == g.below
    && forall level | level in g.levels :: texts.levels[level].attributes.Keys == level.Keys
  }

  ghost function TextsOf(g: Graph): (texts: Texts)
    requires Wellformed(g)
    reads LevelObjects(g), g.below
    ensures Covers(g, texts)
  {
    Texts(map level | level in g.levels :: Flat(level), map s | s in g.below :: BelowView(s, g.below))
  }

  /** An attribute and the tree below it, with a nested resource unfolded wherever it hangs. */
  ghost function AttributeTree(level: Attributes, name: string, g: Graph, texts: Texts): Attribute
    requires Wellformed(g) && level in g.levels && name in level && Covers(g, texts)
    reads LevelObjects(g)`Elem, g.below`Elem
    decreases level[name].Height
  {
    var own := texts.levels[level].attributes[name];
    Attribute(own.description, own.sensitive,
              match level[name].Elem
              case NoElem => NoElement
              case SchemaElem(s) => SchemaElement(texts.below[s])
              case ResourceElem(r) => ResourceElement(Level(map k | k in r.Schema :: AttributeTree(r.Schema, k, g,
                      texts))))
  }

  ghost function Tree(level: Attributes, g: Graph, texts: Texts): Level
    requires Wellformed(g) && level in g.levels && Covers(g, texts)
    reads LevelObjects(g)`Elem, g.below`Elem
  {
    Level(map k | k in level :: AttributeTree(level, k, g, texts))
  }

  ghost function LevelView(level: Attributes, g: Graph): Level
    requires Wellformed(g) && level in g.levels
    reads LevelObjects(g), g.below
  {
    Tree(level, g, TextsOf(g))
  }

  /** What a tree says of the objects of a level. */
  lemma LevelShows(level: Attributes, g: Graph)
    requires Wellformed(g) && level in g.levels
    ensures var attributes := LevelView(level, g).attributes;
            && attributes.Keys == level.Keys
            && forall k | k in level ::
                 && attributes[k].description == level[k].Description && attributes[k].sensitive == level[k].Sensitive
                 && (level[k].Elem.NoElem? ==> attributes[k].element == NoElement)
                 && (level[k].Elem.SchemaElem? ==>
                       && level[k].Elem.schema in g.below
                       && attributes[k].element == SchemaElement(BelowView(level[k].Elem.schema, g.below)))
                 && (level[k].Elem.ResourceElem? ==>
                       && level[k].Elem.resource.Schema in g.levels
                       && attributes[k].element == ResourceElement(LevelView(level[k].Elem.resource.Schema, g)))
  {
    hide Wellformed;
    forall k | k in level ensures Linked(level[k], g) { NestedLinked(g, level, k); }
    forall k | k in level && level[k].Elem.ResourceElem?
      ensures AttributeTree(level, k, g, TextsOf(g)).element
              == ResourceElement(LevelView(level[k].Elem.resource.Schema, g))
    {
      NestedTree(g, TextsOf(g), level, k);
    }
  }

  lemma BelowShows(s: Schema, below: set<Schema>)
    requires s in below && forall t | t in below :: LinkedBelow(t, below)
    ensures var v := BelowView(s, below);
            && v.description == s.Description && v.sensitive == s.Sensitive
            && (s.Elem.NoElem? ==> v.element == NoElement)
            && (s.Elem.SchemaElem? ==>
                  s.Elem.schema in below && v.element == SchemaElement(BelowView(s.Elem.schema, below)))
            && (s.Elem.ResourceElem? ==>
                  && v.element.ResourceElement? && v.element.level.attributes.Keys == s.Elem.resource.Schema.Keys
                  && forall k | k in s.Elem.resource.Schema ::
                       s.Elem.resource.Schema[k] in below
                       && v.element.level.attributes[k] == BelowView(s.Elem.resource.Schema[k], below))
  {
    assert LinkedBelow(s, below);
  }

  // ---- the specification, level by level and as a tree ----

  /** The rules of module Levels that a style comes to. */
  ghost predicate Follows(rules: Rules, style: Style) {
    && Sound(rules)
    && (forall siblings, name {:trigger Classify(style, siblings, name)} ::
          rules.kind(siblings, name) == Classify(style, siblings, name))
    && (forall text, name {:trigger Filtered(text, name)} :: rules.filter(text, name) == Filtered(text, name))
  }

  /** A set of levels from which no nested resource leads out. */
  ghost predicate Closed(g: Graph, done: set<Attributes>)
    reads LevelObjects(g)`Elem
  {
    && done <= g.levels
    && forall level: Attributes, k | level in done && k in level
        && level[k].Elem.ResourceElem? :: level[k].Elem.resource.Schema in done
  }

  /** The levels in `done` are rewritten, each on its own. */
  ghost predicate RewrittenIn(rules: Rules, g: Graph, done: set<Attributes>, before: Texts, after: Texts) {
    && Covers(g, before) && Covers(g, after) && after.below == before.below
    && forall level | level in done && level in g.levels :: after.levels[level]
        == Rewritten(rules, before.levels[level])
  }

  /** Levels rewritten on their own make up the rewritten tree. */
  lemma {:induction false} TreeRewritten(rules: Rules, g: Graph, done: set<Attributes>, before: Texts, after: Texts,
                                         level: Attributes)
    requires Wellformed(g) && Closed(g, done) && RewrittenIn(rules, g, done, before, after) && level in done
    ensures Tree(level, g, after) == Rewritten(rules, Tree(level, g, before))
  {
    hide Wellformed, AttributeTree, Covers, Described;
    forall k | k in level ensures AttributeTree(level, k, g, after) == AttributeDue(rules, level, k, g, before) {
      AttributeRewritten(rules, g, done, before, after, level, k);
    }
    LevelDue(rules, g, before, after, level);
  }

  /** What the specification makes of an attribute in its tree. */
  ghost function AttributeDue(rules: Rules, level: Attributes, name: string, g: Graph, texts: Texts): Attribute
    requires Wellformed(g) && level in g.levels && name in level && Covers(g, texts)
    reads LevelObjects(g)`Elem, g.below`Elem
  {
    var was := AttributeTree(level, name, g, texts);
    was.(description := Described(rules, Tree(level, g, texts), name), element := RewrittenElement(rules, was.element))
  }

  lemma LevelDue(rules: Rules, g: Graph, before: Texts, after: Texts, level: Attributes)
    requires Wellformed(g) && level in g.levels && Covers(g, before) && Covers(g, after)
    requires forall k | k in level :: AttributeTree(level, k, g, after) == AttributeDue(rules, level, k, g, before)
    ensures Tree(level, g, after) == Rewritten(rules, Tree(level, g, before))
  {
    hide Wellformed, AttributeTree, Covers, Described;
    assert Tree(level, g, after).attributes == Rewritten(rules, Tree(level, g, before)).attributes;
  }

  lemma {:induction false} AttributeRewritten(rules: Rules, g: Graph, done: set<Attributes>, before: Texts,
                                              after: Texts, level: Attributes, name: string)
    requires Wellformed(g) && Closed(g, done) && RewrittenIn(rules, g, done, before, after) && level in done
            && name in level
    ensures AttributeTree(level, name, g, after) == AttributeDue(rules, level, name, g, before)
    decreases level[name].Height
  {
    hide Wellformed, Covers, Rewritten, Described;
    OwnText(rules, g, done, before, after, level, name);
    NestedLinked(g, level, name);
    if level[name].Elem.ResourceElem? {
      var nested := level[name].Elem.resource.Schema;
      forall k | k in nested ensures AttributeTree(nested, k, g, after) == AttributeDue(rules, nested, k, g, before) {
        AttributeRewritten(rules, g, done, before, after, nested, k);
      }
      LevelDue(rules, g, before, after, nested);
      NestedTree(g, before, level, name);
      NestedTree(g, after, level, name);
    }
  }

  lemma NestedTree(g: Graph, texts: Texts, level: Attributes, name: string)
    requires Wellformed(g) && level in g.levels && name in level && Covers(g, texts) && level[name].Elem.ResourceElem?
    ensures level[name].Elem.resource.Schema in g.levels
    ensures AttributeTree(level, name, g, texts).element
            == ResourceElement(Tree(level[name].Elem.resource.Schema, g, texts))
  {
    hide Wellformed;
    NestedLinked(g, level, name);
    var nested := level[name].Elem.resource.Schema;
    assert AttributeTree(level, name, g, texts).element.level.attributes == Tree(nested, g, texts).attributes;
  }

  lemma NestedLinked(g: Graph, level: Attributes, name: string)
    requires Wellformed(g) && level in g.levels && name in level
    ensures Linked(level[name], g)
  {
  }

  /** The description and the flag of an attribute depend on its own level only. */
  lemma OwnText(rules: Rules, g: Graph, done: set<Attributes>, before: Texts, after: Texts, level: Attributes,
                name: string)
    requires Wellformed(g) && Closed(g, done) && RewrittenIn(rules, g, done, before, after) && level in done
            && name in level
    ensures var own := after.levels[level].attributes[name];
            && own.description == Described(rules, Tree(level, g, before), name)
            && own.sensitive == before.levels[level].attributes[name].sensitive
  {
    hide Wellformed, AttributeTree;
    SameSiblings(g, before, level);
  }

  lemma SameSiblings(g: Graph, texts: Texts, level: Attributes)
    requires Wellformed(g) && level in g.levels && Covers(g, texts)
    ensures Siblings(Tree(level, g, texts)) == Siblings(texts.levels[level])
    ensures forall k | k in level ::
              Tree(level, g, texts).attributes[k].description == texts.levels[level].attributes[k].description
  {
    hide Wellformed;
    assert Siblings(Tree(level, g, texts)).Keys == level.Keys;
  }

  // ---- the rewriter ----

  /** What a run starts from. */
  datatype Plan = Plan(g: Graph, was: map<Attributes, Level>, rules: Rules)

  ghost predicate Ready(plan: Plan, style: Style)
    reads LevelObjects(plan.g)`Elem, plan.g.below`Elem
  {
    Wellformed(plan.g) && plan.was.Keys == plan.g.levels && Follows(plan.rules, style)
  }

  /** Of the levels under `bound`, apart from `skip`, those in `done` are rewritten and the others as they were. */
  ghost predicate Consistent(plan: Plan, done: set<Attributes>, bound: nat, skip: set<Attributes>)
    reads LevelObjects(plan.g)
  {
    forall level | level in plan.g.levels && level in plan.was && level !in skip && Under(level, bound) ::
      Flat(level) == if level in done then Rewritten(plan.rules, plan.was[level]) else plan.was[level]
  }

  /** `attributes[name].Description = description` changes this entry of the level and nothing else. */
  method Describe(attributes: Attributes, name: string, description: string, ghost g: Graph)
    requires Wellformed(g) && attributes in g.levels && name in attributes
    modifies {attributes[name]}`Description
    ensures Flat(attributes) == WithDescription(old(Flat(attributes)), name, description)
    ensures forall level | level in g.levels && level != attributes :: Flat(level) == old(Flat(level))
  {
    attributes[name].Description := description;
    assert forall k | k in attributes && k != name :: attributes[k] != attributes[name];
    assert Flat(attributes).attributes == WithDescription(old(Flat(attributes)), name, description).attributes;
    assert forall level | level in g.levels && level != attributes :: attributes[name] !in level.Values;
  }

  /** The two name tests of the loop body and the text each of them leads to. */
  method Classified(attributes: Attributes, name: string, style: Style, ghost rules: Rules) returns (kind: Kind)
    requires Follows(rules, style)
    ensures kind == rules.kind(Siblings(Flat(attributes)), name)
    ensures kind.WriteOnly? ==> kind.base in attributes
  {
    hide WriteOnlyDescription, WriteOnlyVersionDescription, ApiFieldName, Filtered, Sound;
    ghost var siblings := Siblings(Flat(attributes));
    assert siblings.Keys == attributes.Keys;
    assert rules.kind(siblings, name) == Classify(style, siblings, name);
    var versionBase := WriteOnlyVersionBase(name, attributes.Keys);
    if versionBase.Some? {
      var base := versionBase.value;
      var field := ApiFieldName(style.camel, base, attributes[base].Sensitive);
      return Counter(WriteOnlyVersionDescription(style.words, base, field));
    }
    var writeOnlyBase := WriteOnlyBase(name, attributes.Keys);
    if writeOnlyBase.None? {
      return Ordinary;
    }
    var base := writeOnlyBase.value;
    var field := ApiFieldName(style.camel, base, attributes[base].Sensitive);
    return WriteOnly(WriteOnlyDescription(style.words, base, field), base);
  }

  /** The last assignment: the base loses the sentences that name the attribute. */
  method FilterBase(attributes: Attributes, base: string, name: string, ghost g: Graph)
    requires Wellformed(g) && attributes in g.levels && base in attributes
    modifies {attributes[base]}`Description
    ensures Flat(attributes)
            == WithDescription(old(Flat(attributes)), base, Filtered(old(attributes[base].Description), name))
    ensures forall level | level in g.levels && level != attributes :: Flat(level) == old(Flat(level))
  {
    hide Filtered, Trimmed, Survivors, Quoted, Linked, LinkedBelow;
    var filtered := WithoutSentencesNaming(attributes[base].Description, name);
    Describe(attributes, base, filtered, g);
  }

  /** The assignments of the loop body. */
  method DescribeAttribute(attributes: Attributes, name: string, style: Style, ghost g: Graph, ghost rules: Rules)
    requires Wellformed(g) && Follows(rules, style) && attributes in g.levels && name in attributes
    modifies (set k | k in attributes :: attributes[k])`Description
    ensures Flat(attributes) == Visit(rules, old(Flat(attributes)), name, NoElement)
    ensures forall level | level in g.levels && level != attributes :: Flat(level) == old(Flat(level))
  {
    hide Sound, Classify, Filtered, Linked, LinkedBelow;
    ghost var was := Flat(attributes);
    assert WithElement(was, name, NoElement).attributes == was.attributes;
    var kind := Classified(attributes, name, style, rules);
    match kind
    case Ordinary =>
    case Counter(text) =>
      Describe(attributes, name, text, g);
    case WriteOnly(text, base) =>
      Describe(attributes, name, text, g);
      FilterBase(attributes, base, name, g);
  }

  /** The recursive call for one attribute rewrites what hangs off it through a nested resource. */
  method Descend(attribute: Schema, style: Style, ghost plan: Plan, ghost done: set<Attributes>)
      returns (ghost rewritten: set<Attributes>)
    requires Ready(plan, style) && attribute in LevelObjects(plan.g)
    requires Closed(plan.g, done) && Consistent(plan, done, attribute.Height, {})
    modifies LevelObjects(plan.g)`Description
    ensures Closed(plan.g, rewritten) && done <= rewritten && Consistent(plan, rewritten, attribute.Height, {})
    ensures attribute.Elem.ResourceElem? ==> attribute.Elem.resource.Schema in rewritten
    ensures forall level | level in rewritten && level !in done :: Under(level, attribute.Height)
    ensures forall level | level in plan.g.levels && !Under(level, attribute.Height) :: Flat(level) == old(Flat(level))
    decreases attribute.Height, 4
  {
    hide Closed, Consistent, Follows;
    rewritten := done;
    if attribute.Elem.ResourceElem? {
      rewritten := DescribeWriteOnly(attribute.Elem.resource.Schema, style, plan, done, attribute.Height);
    }
  }

  /** In the range loop over a level: the other levels are as they should be, and this one is on its way. */
  ghost predicate Underway(plan: Plan, attributes: Attributes, start: Level, unvisited: set<string>,
                           done: set<Attributes>, bound: nat)
    reads LevelObjects(plan.g)
  {
    && attributes in plan.g.levels && Closed(plan.g, done) && Consistent(plan, done, bound, {attributes})
    && Pending(plan.rules, start, unvisited, Flat(attributes))
    && NestedDone(attributes, unvisited, done)
  }

  ghost predicate NestedDone(attributes: Attributes, unvisited: set<string>, done: set<Attributes>)
    reads attributes.Values`Elem
  {
    forall k | k in attributes && k !in unvisited && attributes[k].Elem.ResourceElem? ::
      attributes[k].Elem.resource.Schema in done
  }

  /** The first statement of an iteration: this level stays as it is. */
  method DescendAt(attributes: Attributes, name: string, style: Style, ghost plan: Plan, ghost done: set<Attributes>,
                   ghost bound: nat)
    returns (ghost rewritten: set<Attributes>)
    requires Ready(plan, style) && attributes in plan.g.levels && Under(attributes, bound) && name in attributes
    requires Closed(plan.g, done) && Consistent(plan, done, bound, {attributes})
    modifies LevelObjects(plan.g)`Description
    ensures Closed(plan.g, rewritten) && done <= rewritten && Consistent(plan, rewritten, bound, {attributes})
    ensures attributes[name].Elem.ResourceElem? ==> attributes[name].Elem.resource.Schema in rewritten
    ensures forall level | level in rewritten && level !in done :: Under(level, bound)
    ensures forall level | level in plan.g.levels
            && (level == attributes || !Under(level, bound)) :: Flat(level) == old(Flat(level))
    decreases bound, 1
  {
    hide Follows;
    rewritten := Descend(attributes[name], style, plan, done);
    UnderLess(attributes[name].Height, bound);
  }

  lemma UnderLess(less: nat, bound: nat)
    requires less <= bound
    ensures forall level | Under(level, less) :: Under(level, bound)
  {
  }

  lemma UnderwayParts(plan: Plan, attributes: Attributes, start: Level, unvisited: set<string>, done: set<Attributes>,
                      bound: nat)
    requires Underway(plan, attributes, start, unvisited, done, bound)
    ensures Closed(plan.g, done) && Consistent(plan, done, bound, {attributes})
    ensures Pending(plan.rules, start, unvisited, Flat(attributes)) && NestedDone(attributes, unvisited, done)
  {
  }

  /** After one more visit. */
  lemma UnderwayNext(plan: Plan, style: Style, attributes: Attributes, start: Level, current: Level,
                     unvisited: set<string>, name: string,
                     done: set<Attributes>, rewritten: set<Attributes>, bound: nat)
    requires Ready(plan, style) && attributes in plan.g.levels && name in unvisited && name in attributes
            && done <= rewritten
    requires Pending(plan.rules, start, unvisited, current) && name in current.attributes
            && current.attributes[name].element == NoElement
    requires Flat(attributes) == Visit(plan.rules, current, name, NoElement)
    requires Closed(plan.g, rewritten) && Consistent(plan, rewritten, bound, {attributes})
    requires NestedDone(attributes, unvisited, done)
    requires attributes[name].Elem.ResourceElem? ==> attributes[name].Elem.resource.Schema in rewritten
    ensures Underway(plan, attributes, start, unvisited - {name}, rewritten, bound)
  {
    hide Pending, Visit, Wellformed, Closed, Consistent;
    PendingLess(plan.rules, start, unvisited, current, name);
  }

  /** One iteration of the range loop. */
  method VisitAttribute(attributes: Attributes, name: string, style: Style, ghost plan: Plan, ghost start: Level,
                        ghost unvisited: set<string>, ghost done: set<Attributes>, ghost bound: nat)
    returns (ghost rewritten: set<Attributes>)
    requires Ready(plan, style) && attributes in plan.g.levels && Under(attributes, bound)
    requires Underway(plan, attributes, start, unvisited, done, bound) && name in unvisited && name in attributes
    modifies LevelObjects(plan.g)`Description
    ensures Underway(plan, attributes, start, unvisited - {name}, rewritten, bound) && done <= rewritten
    ensures forall level | level in rewritten && level !in done :: Under(level, bound)
    ensures forall level | level in plan.g.levels && !Under(level, bound) :: Flat(level) == old(Flat(level))
    decreases bound, 2
  {
    hide Pending, Visit, Linked, LinkedBelow, Under, Underway;
    ghost var current := Flat(attributes);
    UnderwayParts(plan, attributes, start, unvisited, done, bound);
    rewritten := DescendAt(attributes, name, style, plan, done, bound);
    DescribeAttribute(attributes, name, style, plan.g, plan.rules);
    UnderwayNext(plan, style, attributes, start, current, unvisited, name, done, rewritten, bound);
  }

  method DescribeWriteOnly(attributes: Attributes, style: Style, ghost plan: Plan, ghost done: set<Attributes>,
                           ghost bound: nat)
    returns (ghost rewritten: set<Attributes>)
    requires Ready(plan, style) && attributes in plan.g.levels && Under(attributes, bound)
    requires Closed(plan.g, done) && Consistent(plan, done, bound, {})
    modifies LevelObjects(plan.g)`Description
    ensures Closed(plan.g, rewritten) && done <= rewritten && attributes in rewritten
    ensures Consistent(plan, rewritten, bound, {})
    ensures forall level | level in rewritten && level !in done :: Under(level, bound)
    ensures forall level | level in plan.g.levels && !Under(level, bound) :: Flat(level) == old(Flat(level))
    decreases bound, 3
  {
    hide Wellformed, Underway, Consistent, Closed, Follows, Under;
    ghost var start := Flat(attributes);
    rewritten := done;
    Started(plan, attributes, done, bound);
    var unvisited := attributes.Keys;
    while unvisited != {}
      invariant unvisited <= attributes.Keys && done <= rewritten
      invariant Underway(plan, attributes, start, unvisited, rewritten, bound)
      invariant forall level | level in rewritten && level !in done :: Under(level, bound)
      invariant forall level | level in plan.g.levels && !Under(level, bound) :: Flat(level) == old(Flat(level))
      decreases unvisited
    {
      var name :| name in unvisited;
      rewritten := VisitAttribute(attributes, name, style, plan, start, unvisited, rewritten, bound);
      unvisited := unvisited - {name};
    }
    Finished(plan, style, attributes, start, rewritten, bound, attributes in done);
    rewritten := rewritten + {attributes};
  }

  lemma Started(plan: Plan, attributes: Attributes, done: set<Attributes>, bound: nat)
    requires attributes in plan.g.levels && attributes in plan.was && Under(attributes, bound)
    requires Closed(plan.g, done) && Consistent(plan, done, bound, {})
    ensures Underway(plan, attributes, Flat(attributes), attributes.Keys, done, bound)
    ensures Flat(attributes) == if attributes in done then Rewritten(plan.rules, plan.was[attributes])
            else plan.was[attributes]
  {
    PendingAll(plan.rules, Flat(attributes));
    assert Flat(attributes).attributes.Keys == attributes.Keys;
  }

  /** A level visited to the end is rewritten, also if it was before. */
  lemma Finished(plan: Plan, style: Style, attributes: Attributes, start: Level, done: set<Attributes>, bound: nat,
                 again: bool)
    requires Ready(plan, style) && Underway(plan, attributes, start, {}, done, bound)
    requires start == if again then Rewritten(plan.rules, plan.was[attributes]) else plan.was[attributes]
    ensures Closed(plan.g, done + {attributes}) && Consistent(plan, done + {attributes}, bound, {})
  {
    PendingNone(plan.rules, start, Flat(attributes));
    Idempotent(plan.rules, plan.was[attributes]);
  }

  /** Some height is above all of a level. */
  lemma {:induction false} HeightAbove(level: Attributes) returns (bound: nat)
    ensures Under(level, bound)
    decreases |level|
  {
    if level == map[] {
      bound := 0;
    } else {
      var k :| k in level;
      var rest := level - {k};
      bound := HeightAbove(rest);
      bound := if bound > level[k].Height then bound else level[k].Height + 1;
      assert forall j | j in level :: j == k || j in rest;
    }
  }

  lemma BelowKept(g: Graph, below: map<Schema, Attribute>)
    requires Wellformed(g) && below.Keys == g.below && forall s | s in g.below :: BelowView(s, g.below) == below[s]
    ensures TextsOf(g).below == below
  {
  }

  lemma LevelsRewritten(rules: Rules, g: Graph, done: set<Attributes>, texts: Texts, bound: nat)
    requires Wellformed(g) && Covers(g, texts) && TextsOf(g).below == texts.below
    requires Consistent(Plan(g, texts.levels, rules), done, bound, {})
            && forall level | level in done :: Under(level, bound)
    ensures RewrittenIn(rules, g, done, texts, TextsOf(g))
  {
    hide Wellformed;
  }

  /** The run from the outside: the levels it comes to are rewritten, and what lies below stays. */
  method DescribeAll(attributes: Attributes, style: Style, ghost g: Graph, ghost texts: Texts)
      returns (ghost done: set<Attributes>)
    requires Wellformed(g) && attributes in g.levels && texts == TextsOf(g)
    modifies LevelObjects(g)`Description
    ensures attributes in done && Closed(g, done) && RewrittenIn(RulesOf(style), g, done, texts, TextsOf(g))
  {
    hide Linked, LinkedBelow, RulesOf, Rewritten, Under, Follows, Flat;
    ghost var rules := RulesOf(style);
    RulesFollow(style);
    ghost var bound := HeightAbove(attributes);
    NothingRewritten(g, rules, bound);
    done := DescribeWriteOnly(attributes, style, Plan(g, texts.levels, rules), {}, bound);
    assert forall s | s in g.below :: BelowView(s, g.below) == texts.below[s];
    BelowKept(g, texts.below);
    LevelsRewritten(rules, g, done, texts, bound);
  }

  lemma NothingRewritten(g: Graph, rules: Rules, bound: nat)
    requires Wellformed(g)
    ensures Consistent(Plan(g, TextsOf(g).levels, rules), {}, bound, {}) && Closed(g, {})
  {
  }

  lemma RulesFollow(style: Style)
    ensures Follows(RulesOf(style), style)
  {
    RulesSound(style);
  }

  /**
   WriteOnlyDescriptions: whatever the order of the visits, the tree below the resource, unfolded where nested
   resources are shared, ends as specified. A resource without a Terraform schema is left alone.
   */
  method WriteOnlyDescriptions(terraformResource: Option<Resource>, style: Style, ghost g: Graph)
    requires Wellformed(g) && (terraformResource.Some? ==> terraformResource.value.Schema in g.levels)
    modifies LevelObjects(g)`Description
    ensures terraformResource.Some? ==>
              var attributes := terraformResource.value.Schema;
              LevelView(attributes, g) == Rewritten(RulesOf(style), old(LevelView(attributes, g)))
    ensures terraformResource.None? ==> TextsOf(g) == old(TextsOf(g))
  {
    hide Linked, LinkedBelow, RulesOf, Rewritten, Closed, RewrittenIn;
    if terraformResource.Some? {
      var attributes := terraformResource.value.Schema;
      ghost var texts := TextsOf(g);
      ghost var before := Tree(attributes, g, texts);
      ghost var done := DescribeAll(attributes, style, g, texts);
      assert Tree(attributes, g, texts) == before;
      TreeRewritten(RulesOf(style), g, done, texts, TextsOf(g), attributes);
    }
  }
}
