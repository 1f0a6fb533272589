/** The fixed English of the two generated texts. None of it holds an underscore or a backtick. */
module English {
  import opened Wrappers
  import opened GoStrings
  import opened Sentences
  import opened Naming
  import opened Levels
  import opened Descriptions

  function Both(a: Phrase, b: Phrase): (r: Phrase)
    ensures Spaced(a) || Spaced(b) ==> Spaced(r)
  {
    a + b
  }

  function EquivalentOf(): Phrase { "Write-only equivalent of " }

  function Attributes(): Sentence { ". Write-only attributes need " }

  function Engine(): Phrase { "engine version 1.11 or later. " }

  function CannotSet(): Phrase { "This provider cannot set them:" }

  function Bundled(): Phrase { " the engine it bundles " }

  function Predates(): Phrase { "predates that version and " }

  function Rejects(): Phrase { "rejects any value, so setting " }

  function Fails(): Phrase { "this field fails validation. " }

  function Set(): Phrase { "Set " }

  function CounterFor(): Phrase { "Version counter for " }

  function WhichCannotBeSet(): Phrase { ", which this provider " }

  function CannotBeSet(): Phrase { "cannot set, so changing " }

  function NoEffect(): Sentence { "this field has no effect. " }

  function Instead(): Phrase { " instead." }

  function Note(): Sentence {
    Both(Both(Both(Attributes(), Engine()), Both(CannotSet(), Bundled())),
         Both(Both(Predates(), Rejects()), Both(Fails(), Set())))
  }

  function WithoutEffect(): Sentence {
    Both(Both(WhichCannotBeSet(), CannotBeSet()), Both(NoEffect(), Set()))
  }

  function Texts(): Wording {
    Wording(EquivalentOf(), Note(), CounterFor(), WithoutEffect(), Instead())
  }

  /** With these texts, too, no attribute at any depth advises to use its write-only form. */
  lemma {:induction false} AdviceRemovedInEnglish(camel: LowerCamel, level: Level, path: seq<string>, name: string,
                                                  base: string)
    requires LevelAt(level, path).Some? && name in LevelAt(level, path).value.attributes
    requires WriteOnlyBase(name, LevelAt(level, path).value.attributes.Keys) == Some(base)
    requires !Contains(name, STOP)
    ensures var final := LevelAt(Rewritten(RulesOf(Style(Texts(), camel)), level), path);
            && final.Some? && base in final.value.attributes
            && !Contains(final.value.attributes[base].description, Quoted(name))
  {
    hide Texts, RulesOf, Rewritten, LevelAt;
    AdviceRemoved(Style(Texts(), camel), level, path, name, base);
  }
}
