/**
 The rules `describeWriteOnly` follows: module Naming's classification and texts and module Sentences' filter,
 put into module Levels. They are sound, so every visiting order ends in the same tree, for any attribute names.
 */
module Descriptions {
  import opened Wrappers
  import opened GoStrings
  import opened Sentences
  import opened Naming
  import opened Levels

  function Form(base: string): string {
    base + WO
  }

  /** The branches of the loop body, in their order. */
  function Classify(style: Style, siblings: map<string, bool>, name: string): Kind {
    match WriteOnlyVersionBase(name, siblings.Keys)
    case Some(base) =>
      Counter(WriteOnlyVersionDescription(style.words, base, ApiFieldName(style.camel, base, siblings[base])))
    case None =>
      match WriteOnlyBase(name, siblings.Keys)
      case Some(base) =>
        WriteOnly(WriteOnlyDescription(style.words, base, ApiFieldName(style.camel, base, siblings[base])), base)
      case None => Ordinary
  }

  function RulesOf(style: Style): Rules {
    Rules((siblings: map<string, bool>, name: string) => Classify(style, siblings, name),
          (base: string) => Form(base),
          (text: string, name: string) => Filtered(text, name))
  }

  lemma ClassifyWriteOnly(style: Style, siblings: map<string, bool>, name: string)
    ensures Classify(style, siblings, name).WriteOnly?
            <==> exists base :: name == Form(base) && base != "" && base in siblings
    ensures Classify(style, siblings, name).WriteOnly?
            ==> var base := Classify(style, siblings, name).base;
                name == Form(base) && base != "" && base in siblings
  {
    ClassesDisjoint(name, siblings.Keys);
    if base :| name == Form(base) && base != "" && base in siblings {
      WriteOnlyBaseIff(name, siblings.Keys, base);
    }
  }

  lemma ClassifyForm(style: Style, siblings: map<string, bool>, base: string)
    requires base != "" && base in siblings
    ensures Classify(style, siblings, Form(base))
            == WriteOnly(WriteOnlyDescription(style.words, base, ApiFieldName(style.camel, base, siblings[base])), base)
  {
    ClassesDisjoint(Form(base), siblings.Keys);
    WriteOnlyBaseIff(Form(base), siblings.Keys, base);
  }

  /** A generated text survives the filter of the one sibling that could apply it. */
  lemma OwnTextStable(style: Style, siblings: map<string, bool>, name: string)
    requires !Classify(style, siblings, name).Ordinary?
    ensures !Contains(Classify(style, siblings, name).text, Quoted(Form(name)))
  {
    match WriteOnlyVersionBase(name, siblings.Keys)
    case Some(base) =>
      WriteOnlyVersionBaseIff(name, siblings.Keys, base);
      assert base + "_wo_version" == base + WO + VERSION;
      VersionTextStable(style.words, base, ApiFieldName(style.camel, base, siblings[base]));
    case None =>
      var base := WriteOnlyBase(name, siblings.Keys).value;
      WriteOnlyBaseIff(name, siblings.Keys, base);
      WriteOnlyTextStable(style.words, base, ApiFieldName(style.camel, base, siblings[base]));
  }

  lemma {:induction false} RulesSound(style: Style)
    ensures Sound(RulesOf(style))
  {
    var rules := RulesOf(style);
    forall siblings, name ensures SoundAt(rules, siblings, name) {
      RulesSoundAt(style, siblings, name);
    }
    forall text, name ensures rules.filter(rules.filter(text, name), name) == rules.filter(text, name) {
      FilteredIdempotent(text, name);
    }
  }

  lemma {:induction false} RulesSoundAt(style: Style, siblings: map<string, bool>, name: string)
    ensures SoundAt(RulesOf(style), siblings, name)
  {
    hide Classify, Form, Filtered, Contains, Quoted;
    var kind, formKind := Classify(style, siblings, name), Classify(style, siblings, Form(name));
    ClassifyWriteOnly(style, siblings, name);
    ClassifyWriteOnly(style, siblings, Form(name));
    if kind.WriteOnly? {
      FormLonger(kind.base);
    }
    if formKind.WriteOnly? {
      SameForm(formKind.base, name);
    }
    if !kind.Ordinary? {
      OwnTextStable(style, siblings, name);
      FilteredAbsent(kind.text, Form(name));
    }
  }

  lemma FormLonger(base: string)
    ensures Form(base) != base
  {
    assert |Form(base)| == |base| + 3;
  }

  lemma FilteredAbsent(text: string, name: string)
    requires !Contains(text, Quoted(name))
    ensures Filtered(text, name) == text
  {
  }

  // ---- the description rewriter's guarantees ----

  /** Every visiting order, at every depth, of any schema tree ends in the same tree. */
  lemma {:induction false} DescribeWriteOnlyConfluent(style: Style, level: Level, one: Schedule, other: Schedule)
    requires Complete(level, one) && Complete(level, other)
    ensures Run(RulesOf(style), level, one) == Run(RulesOf(style), level, other) == Rewritten(RulesOf(style), level)
  {
    RulesSound(style);
    AnyOrder(RulesOf(style), level, one);
    AnyOrder(RulesOf(style), level, other);
  }

  /** What an attribute's description must end as, in terms of its level before the run. */
  function FinalText(style: Style, level: Level, name: string): string
    requires name in level.attributes
  {
    var names, original := level.attributes.Keys, level.attributes[name].description;
    match WriteOnlyVersionBase(name, names)
    case Some(base) =>
      WriteOnlyVersionDescription(style.words, base, ApiFieldName(style.camel, base, level.attributes[base].sensitive))
    case None =>
      match WriteOnlyBase(name, names)
      case Some(base) =>
        WriteOnlyDescription(style.words, base, ApiFieldName(style.camel, base, level.attributes[base].sensitive))
      case None => if name != "" && name + WO in names then Filtered(original, name + WO) else original
  }

  lemma {:induction false} FinalTextDescribed(style: Style, level: Level, name: string)
    requires name in level.attributes
    ensures Described(RulesOf(style), level, name) == FinalText(style, level, name)
  {
    hide WriteOnlyDescription, WriteOnlyVersionDescription, ApiFieldName, WriteOnlyBase, WriteOnlyVersionBase, Filtered;
    var siblings := Siblings(level);
    assert siblings.Keys == level.attributes.Keys;
    if Classify(style, siblings, name).Ordinary? {
      HasFormIff(style, level, name);
    }
  }

  lemma HasFormIff(style: Style, level: Level, name: string)
    requires name in level.attributes
    ensures HasForm(RulesOf(style), level, name) <==> name != "" && name + WO in level.attributes
  {
    hide WriteOnlyDescription, WriteOnlyVersionDescription, ApiFieldName, WriteOnlyBase, WriteOnlyVersionBase, Filtered;
    ClassifyWriteOnly(style, Siblings(level), Form(name));
    if base :| Form(name) == Form(base) && base in Siblings(level) {
      SameForm(name, base);
    }
  }

  lemma SameForm(a: string, b: string)
    requires Form(a) == Form(b)
    ensures a == b
  {
    assert |a| == |b|;
    assert Form(a)[..|a|] == a && Form(b)[..|b|] == b;
  }

  /** The final tree, attribute by attribute, at the end of any path through nested resources. */
  lemma {:induction false} FinalDescription(style: Style, level: Level, path: seq<string>, name: string)
    requires LevelAt(level, path).Some? && name in LevelAt(level, path).value.attributes
    ensures var l := LevelAt(level, path).value;
            var final := LevelAt(Rewritten(RulesOf(style), level), path);
            && final.Some? && final.value.attributes.Keys == l.attributes.Keys
            && final.value.attributes[name].sensitive == l.attributes[name].sensitive
            && final.value.attributes[name].description == FinalText(style, l, name)
  {
    hide WriteOnlyDescription, WriteOnlyVersionDescription, ApiFieldName, WriteOnlyBase, WriteOnlyVersionBase,
        Filtered, FinalText, RulesOf;
    RewrittenAtDepth(RulesOf(style), level, path);
    FinalTextDescribed(style, LevelAt(level, path).value, name);
  }

  // ---- the same in so many words ----

  /** The description that an attribute at the end of a path has after the run. */
  function FinalAt(style: Style, level: Level, path: seq<string>, name: string): Option<string> {
    match LevelAt(Rewritten(RulesOf(style), level), path)
    case None => None
    case Some(final) => if name in final.attributes then Some(final.attributes[name].description) else None
  }

  /** A version counter. */
  lemma {:induction false} CounterSays(style: Style, level: Level, path: seq<string>, base: string)
    requires LevelAt(level, path).Some? && base != "" && NoTick(base)
    requires {base, base + "_wo", base + "_wo_version"} <= LevelAt(level, path).value.attributes.Keys
    ensures var text, words := FinalAt(style, level, path, base + "_wo_version"), style.words;
            var sensitive := LevelAt(level, path).value.attributes[base].sensitive;
            var field := style.camel(base) + if sensitive then "SecretRef" else "";
            text.Some? && Stretches(text.value)
                == [words.counterFor, base + "_wo", words.noEffect, field, words.instead]
  {
    hide RulesOf, Rewritten, LevelAt, WriteOnlyVersionDescription;
    var l := LevelAt(level, path).value;
    FinalDescription(style, level, path, base + "_wo_version");
    WriteOnlyVersionBaseIff(base + "_wo_version", l.attributes.Keys, base);
    VersionStretches(style.words, base, ApiFieldName(style.camel, base, l.attributes[base].sensitive));
  }

  /** A write-only attribute. */
  lemma {:induction false} WriteOnlySays(style: Style, level: Level, path: seq<string>, base: string)
    requires LevelAt(level, path).Some? && base != "" && NoTick(base)
    requires {base, base + "_wo"} <= LevelAt(level, path).value.attributes.Keys
    ensures var text, words := FinalAt(style, level, path, base + "_wo"), style.words;
            var sensitive := LevelAt(level, path).value.attributes[base].sensitive;
            var field := style.camel(base) + if sensitive then "SecretRef" else "";
            text.Some? && Stretches(text.value) == [words.equivalentOf, base, words.note, field, words.instead]
  {
    hide RulesOf, Rewritten, LevelAt, WriteOnlyDescription;
    var l := LevelAt(level, path).value;
    FinalDescription(style, level, path, base + "_wo");
    WriteOnlyBaseIff(base + "_wo", l.attributes.Keys, base);
    ClassesDisjoint(base + "_wo", l.attributes.Keys);
    WriteOnlyStretches(style.words, base, ApiFieldName(style.camel, base, l.attributes[base].sensitive));
  }

  /** A name that gets no generated text. */
  ghost predicate Unmarked(names: set<string>, name: string) {
    forall base :: base != "" && base in names ==>
      && name != base + "_wo"
      && (name == base + "_wo_version" ==> base + "_wo" !in names)
  }

  /**
   The base of a write-only attribute: all its sentences that do not name the attribute are still there, in order,
   the others are cut or gone, and a description that did not name it is as it was.
   */
  lemma {:induction false} BaseSays(style: Style, level: Level, path: seq<string>, name: string)
    requires LevelAt(level, path).Some? && {name, name + "_wo"} <= LevelAt(level, path).value.attributes.Keys
            && name != ""
    requires Unmarked(LevelAt(level, path).value.attributes.Keys, name)
    ensures var text, original := FinalAt(style, level, path, name),
            LevelAt(level, path).value.attributes[name].description;
            var advice := "`" + name + "_wo`";
            && text.Some?
            && (exists at :: SentencesIn(SplitAfter(original, ". "), advice, text.value, at))
            && if Contains(original, advice)
               then exists lo, hi :: Trimmed(Survivors(original, advice), lo, hi, text.value)
               else text.value == original
  {
    hide RulesOf, Rewritten, LevelAt, Survivors, SplitAfter;
    var l := LevelAt(level, path).value;
    FinalDescription(style, level, path, name);
    UnmarkedIs(l.attributes.Keys, name);
    assert "`" + name + "_wo`" == Quoted(name + WO);
    SentencesStay(l.attributes[name].description, name + WO);
    FilteredTrims(l.attributes[name].description, name + WO);
  }

  /** Any other attribute. */
  lemma {:induction false} OthersStay(style: Style, level: Level, path: seq<string>, name: string)
    requires LevelAt(level, path).Some? && name in LevelAt(level, path).value.attributes
    requires Unmarked(LevelAt(level, path).value.attributes.Keys, name)
    requires name == "" || name + "_wo" !in LevelAt(level, path).value.attributes
    ensures FinalAt(style, level, path, name) == Some(LevelAt(level, path).value.attributes[name].description)
  {
    hide RulesOf, Rewritten, LevelAt;
    FinalDescription(style, level, path, name);
    UnmarkedIs(LevelAt(level, path).value.attributes.Keys, name);
  }

  lemma UnmarkedIs(names: set<string>, name: string)
    requires Unmarked(names, name)
    ensures WriteOnlyBase(name, names).None? && WriteOnlyVersionBase(name, names).None?
  {
    if WriteOnlyBase(name, names).Some? {
      WriteOnlyBaseIff(name, names, WriteOnlyBase(name, names).value);
    }
    if WriteOnlyVersionBase(name, names).Some? {
      WriteOnlyVersionBaseIff(name, names, WriteOnlyVersionBase(name, names).value);
    }
  }

  /** What hangs off an attribute is rewritten only through nested resources. */
  lemma {:induction false} SchemaElementsUntouched(style: Style, level: Level, path: seq<string>, name: string)
    requires LevelAt(level, path).Some? && name in LevelAt(level, path).value.attributes
    requires !LevelAt(level, path).value.attributes[name].element.ResourceElement?
    ensures var final := LevelAt(Rewritten(RulesOf(style), level), path);
            && final.Some? && name in final.value.attributes
            && final.value.attributes[name].element == LevelAt(level, path).value.attributes[name].element
  {
    RewrittenAtDepth(RulesOf(style), level, path);
  }

  /**
   Nothing points users of `base` at its write-only form any more, at any depth. The one exception is a write-only
   name with a sentence stop inside, on a base that has no generated text of its own.
   */
  lemma {:induction false} AdviceRemoved(style: Style, level: Level, path: seq<string>, name: string, base: string)
    requires LevelAt(level, path).Some? && name in LevelAt(level, path).value.attributes
    requires WriteOnlyBase(name, LevelAt(level, path).value.attributes.Keys) == Some(base)
    ensures var l := LevelAt(level, path).value;
            var final := LevelAt(Rewritten(RulesOf(style), level), path);
            && base in l.attributes && final.Some? && base in final.value.attributes
            && (Contains(final.value.attributes[base].description, Quoted(name))
                <==> && WriteOnlyBase(base, l.attributes.Keys).None?
                     && WriteOnlyVersionBase(base, l.attributes.Keys).None?
                     && Contains(name, STOP) && Contains(l.attributes[base].description, Quoted(name)))
  {
    hide RulesOf, Contains, Filtered, LevelAt, Rewritten, FinalText;
    var l := LevelAt(level, path).value;
    WriteOnlyBaseIff(name, l.attributes.Keys, base);
    FinalDescription(style, level, path, base);
    FinalTextAdvises(style, l, base);
  }

  /** Which final texts name the write-only form of their attribute. */
  lemma {:induction false} FinalTextAdvises(style: Style, level: Level, base: string)
    requires base in level.attributes && base != "" && base + WO in level.attributes
    ensures Contains(FinalText(style, level, base), Quoted(base + WO))
            <==> && WriteOnlyBase(base, level.attributes.Keys).None?
                 && WriteOnlyVersionBase(base, level.attributes.Keys).None?
                 && Contains(base + WO, STOP) && Contains(level.attributes[base].description, Quoted(base + WO))
  {
    hide WriteOnlyDescription, WriteOnlyVersionDescription, ApiFieldName, WriteOnlyBase, WriteOnlyVersionBase,
        Filtered, Contains;
    assert Siblings(level).Keys == level.attributes.Keys;
    if Classify(style, Siblings(level), base).Ordinary? {
      FilteredStillNames(level.attributes[base].description, base + WO);
    } else {
      OwnTextStable(style, Siblings(level), base);
    }
  }

  /** A level with a name that is never found in one sentence: the advice stays. */
  function StopInName(): Level {
    Level(map["a. b" := Attribute(Quoted("a. b_wo"), false, NoElement), "a. b_wo" := Attribute("", false, NoElement)])
  }

  lemma AdviceEscapes(style: Style)
    ensures var final := Rewritten(RulesOf(style), StopInName()).attributes;
            "a. b" in final && Contains(final["a. b"].description, Quoted("a. b_wo"))
  {
    hide RulesOf, Rewritten, Contains, WriteOnlyBase, WriteOnlyVersionBase;
    var level := StopInName();
    NamesWithStop(level.attributes.Keys);
    assert LevelAt(level, []) == Some(level)
        && LevelAt(Rewritten(RulesOf(style), level), []) == Some(Rewritten(RulesOf(style), level));
    StopInNameEscapes();
    AdviceRemoved(style, level, [], "a. b_wo", "a. b");
  }

  lemma NamesWithStop(names: set<string>)
    requires names == {"a. b", "a. b_wo"}
    ensures WriteOnlyBase("a. b_wo", names) == Some("a. b") && Contains("a. b_wo", STOP)
    ensures WriteOnlyBase("a. b", names).None? && WriteOnlyVersionBase("a. b", names).None?
  {
    WriteOnlyBaseIff("a. b_wo", names, "a. b");
    assert "a. b_wo" == "a. b" + WO;
    assert OccursAt("a. b_wo", STOP, 1);
  }

  /** A name that can stand between backticks and is not a phrase of several words. */
  predicate OneWord(name: string) {
    NoTick(name) && ' ' !in name
  }

  /**
   The generated text of an attribute, at any depth, names exactly the attribute it is about and the API field that
   a manifest sets for it.
   */
  lemma {:induction false} GeneratedTextNames(style: Style, level: Level, path: seq<string>, name: string,
                                              other: string)
    requires LevelAt(level, path).Some? && name in LevelAt(level, path).value.attributes
    requires NoTick(name) && OneWord(other)
    ensures var l := LevelAt(level, path).value;
            var final := LevelAt(Rewritten(RulesOf(style), level), path);
            && final.Some? && name in final.value.attributes
            && var names := Contains(final.value.attributes[name].description, Quoted(other));
               match (WriteOnlyVersionBase(name, l.attributes.Keys), WriteOnlyBase(name, l.attributes.Keys))
               case (Some(base), _) =>
                 names <==> other == base + WO || other == ApiFieldName(style.camel, base, l.attributes[base].sensitive)
               case (None, Some(base)) =>
                 names <==> other == base || other == ApiFieldName(style.camel, base, l.attributes[base].sensitive)
               case (None, None) => true
  {
    hide RulesOf, Contains, Filtered, LevelAt, Rewritten, ApiFieldName, Quoted;
    var l := LevelAt(level, path).value;
    FinalDescription(style, level, path, name);
    match (WriteOnlyVersionBase(name, l.attributes.Keys), WriteOnlyBase(name, l.attributes.Keys))
    case (Some(base), _) =>
      WriteOnlyVersionBaseIff(name, l.attributes.Keys, base);
      Untick(base + WO, name);
      Untick(base, name);
      TextNamesExactly(style.words.counterFor, base + WO, style.words.noEffect,
                       ApiFieldName(style.camel, base, l.attributes[base].sensitive), style.words.instead, other);
    case (None, Some(base)) =>
      WriteOnlyBaseIff(name, l.attributes.Keys, base);
      Untick(base, name);
      TextNamesExactly(style.words.equivalentOf, base, style.words.note,
                       ApiFieldName(style.camel, base, l.attributes[base].sensitive), style.words.instead, other);
    case (None, None) =>
  }

  lemma Untick(prefix: string, name: string)
    requires NoTick(name) && prefix <= name
    ensures NoTick(prefix)
  {
  }

  /** Running the rewriter again, in any order, changes nothing. */
  lemma {:induction false} SecondRunChangesNothing(style: Style, level: Level, one: Schedule, other: Schedule)
    requires Complete(level, one) && Complete(Run(RulesOf(style), level, one), other)
    ensures Run(RulesOf(style), Run(RulesOf(style), level, one), other) == Run(RulesOf(style), level, one)
  {
    RulesSound(style);
    AnyOrder(RulesOf(style), level, one);
    AnyOrder(RulesOf(style), Run(RulesOf(style), level, one), other);
    Idempotent(RulesOf(style), level);
  }
}
