/**
 How config/write_only.go recognises write-only attributes and version counters by name, and the texts it
 generates for them.
 */
module Naming {
  import opened Wrappers
  import opened GoStrings
  import opened Sentences

  const WO: string := "_wo"
  const VERSION: string := "_version"
  const SECRET_REF: string := "SecretRef"

  /** Fixed English between the backticked names of a generated text. */
  predicate Plain(s: string) {
    forall i :: 0 <= i < |s| ==> s[i] != '_' && s[i] != '`'
  }

  type Phrase = s: string | Plain(s) witness ""

  /** The phrase between the two names of a text is more than one word. */
  type Sentence = p: Phrase | Spaced(p) witness " "

  predicate Spaced(s: string) {
    ' ' in s
  }

  /** The fixed phrases of the two generated texts, cut at the backticked names. */
  datatype Wording = Wording(equivalentOf: Phrase, note: Sentence, counterFor: Phrase, noEffect: Sentence,
                             instead: Phrase)

  predicate NoTick(s: string) {
    forall i :: 0 <= i < |s| ==> s[i] != '`'
  }

  /** upjet's lower camel case conversion: a library function of which only this is used. */
  type LowerCamel = f: string -> string | IsLowerCamel(f) witness (s: string) => ""

  ghost predicate IsLowerCamel(f: string -> string) {
    forall s: string :: '_' !in f(s) && (NoTick(s) ==> NoTick(f(s)))
  }

  datatype Style = Style(words: Wording, camel: LowerCamel)

  function WriteOnlyBase(name: string, siblings: set<string>): Option<string> {
    match CutSuffix(name, WO)
    case None => None
    case Some(base) => if base == "" || base !in siblings then None else Some(base)
  }

  function WriteOnlyVersionBase(name: string, siblings: set<string>): Option<string> {
    match CutSuffix(name, WO + VERSION)
    case None => None
    case Some(base) => if base == "" || base + WO !in siblings || base !in siblings then None else Some(base)
  }

  function ApiFieldName(camel: LowerCamel, name: string, sensitive: bool): (field: string)
    ensures '_' !in field && (NoTick(name) ==> NoTick(field))
    ensures field == camel(name) <==> !sensitive
    ensures sensitive ==> CutSuffix(field, "SecretRef") == Some(camel(name))
  {
    camel(name) + if sensitive then SECRET_REF else ""
  }

  function WriteOnlyDescription(words: Wording, base: string, field: string): string {
    words.equivalentOf + Quoted(base) + words.note + Quoted(field) + words.instead
  }

  function WriteOnlyVersionDescription(words: Wording, base: string, field: string): string {
    words.counterFor + Quoted(base + WO) + words.noEffect + Quoted(field) + words.instead
  }

  // ---- classification ----

  /** Exactly which names are write-only, and that a lookup of the base always hits. */
  lemma WriteOnlyBaseIff(name: string, siblings: set<string>, base: string)
    ensures WriteOnlyBase(name, siblings) == Some(base) <==> name == base + "_wo" && base != "" && base in siblings
  {
  }

  lemma WriteOnlyVersionBaseIff(name: string, siblings: set<string>, base: string)
    ensures WriteOnlyVersionBase(name, siblings) == Some(base)
            <==> name == base + "_wo_version" && base != "" && base in siblings && base + "_wo" in siblings
  {
    assert WO + VERSION == "_wo_version";
  }

  /** No name is both, and no two names share a base. */
  lemma ClassesDisjoint(name: string, siblings: set<string>)
    ensures WriteOnlyBase(name, siblings).None? || WriteOnlyVersionBase(name, siblings).None?
  {
    forall a: string, b: string ensures a + WO != b + (WO + VERSION) {
      var s, t := a + WO, b + (WO + VERSION);
      assert s[|s| - 1] == 'o' && t[|t| - 1] == 'n';
    }
  }

  lemma BasesInjective(name: string, other: string, siblings: set<string>)
    requires WriteOnlyBase(name, siblings).Some?
    requires WriteOnlyBase(name, siblings) == WriteOnlyBase(other, siblings)
    ensures name == other
  {
  }

  // ---- the generated texts ----

  /**
   A generated text about `x` names no write-only attribute longer than `x`: its first backtick opens `x`, its
   last underscore is inside `x`, and a match would have to begin before the one and go on after the other.
   */
  lemma TextNamesNoLonger(opening: Phrase, x: string, middle: Phrase, field: string, closing: Phrase, stem: string)
    requires '_' !in field && |x| < |stem + WO|
    ensures !Contains(opening + Quoted(x) + middle + Quoted(field) + closing, Quoted(stem + WO))
  {
    var t, q := opening + Quoted(x) + middle + Quoted(field) + closing, Quoted(stem + WO);
    if Contains(t, q) {
      var i :| OccursAt(t, q, i);
      QuotedForm(t, stem, i);
    }
  }

  /** An occurrence of a write-only name begins with a backtick and ends with `_wo` and a backtick. */
  lemma QuotedForm(t: string, stem: string, i: int)
    requires OccursAt(t, Quoted(stem + WO), i)
    ensures 0 <= i && i + |stem| + 5 <= |t| && t[i] == '`'
    ensures var u := i + |stem| + 1;
            t[u] == '_' && t[u + 1] == 'w' && t[u + 2] == 'o' && t[u + 3] == '`'
  {
    var q := Quoted(stem + WO);
    OccurrenceChar(t, q, i, 0);
    OccurrenceChar(t, q, i, |stem| + 1);
    OccurrenceChar(t, q, i, |stem| + 2);
    OccurrenceChar(t, q, i, |stem| + 3);
    OccurrenceChar(t, q, i, |stem| + 4);
  }

  lemma WriteOnlyTextStable(words: Wording, base: string, field: string)
    requires '_' !in field
    ensures !Contains(WriteOnlyDescription(words, base, field), Quoted(base + WO + WO))
  {
    TextNamesNoLonger(words.equivalentOf, base, words.note, field, words.instead, base + WO);
  }

  lemma VersionTextStable(words: Wording, base: string, field: string)
    requires '_' !in field
    ensures !Contains(WriteOnlyVersionDescription(words, base, field), Quoted(base + WO + VERSION + WO))
  {
    TextNamesNoLonger(words.counterFor, base + WO, words.noEffect, field, words.instead, base + WO + VERSION);
  }

  /**
   What a generated text names in backticks: the attribute and the API field, and, read between the closing and the
   next opening backtick, the phrase in the middle.
   */
  lemma TextNamesExactly(opening: Phrase, x: string, middle: Phrase, field: string, closing: Phrase, name: string)
    requires NoTick(x) && NoTick(field) && NoTick(name)
    ensures Contains(opening + Quoted(x) + middle + Quoted(field) + closing, Quoted(name))
            <==> name == x || name == middle || name == field
  {
    hide Contains;
    var t := opening + Quoted(x) + middle + Quoted(field) + closing;
    var a := |opening|;
    var b := a + |x| + 1;
    var c := b + |middle| + 1;
    var d := c + |field| + 1;
    Segments(opening, x, middle, field, closing);
    assert forall k :: 0 <= k < |t| ==> (t[k] == '`' <==> k in {a, b, c, d});
    BetweenTicks(t, a, b, c, d, name);
  }

  /** The four backticks of a generated text and what lies between them. */
  lemma Segments(opening: Phrase, x: string, middle: Phrase, field: string, closing: Phrase)
    requires NoTick(x) && NoTick(field)
    ensures var t := opening + Quoted(x) + middle + Quoted(field) + closing;
            var a := |opening|;
            var b := a + |x| + 1;
            var c := b + |middle| + 1;
            var d := c + |field| + 1;
            && d < |t| && t[a + 1..b] == x && t[b + 1..c] == middle && t[c + 1..d] == field
            && forall k :: 0 <= k < |t| ==> (t[k] == '`' <==> k in {a, b, c, d})
  {
  }

  /** A text with four backticks names the three stretches between one and the next. */
  lemma BetweenTicks(t: string, a: nat, b: nat, c: nat, d: nat, name: string)
    requires a < b < c < d < |t| && forall k :: 0 <= k < |t| ==> (t[k] == '`' <==> k in {a, b, c, d})
    requires NoTick(name)
    ensures Contains(t, Quoted(name)) <==> name == t[a + 1..b] || name == t[b + 1..c] || name == t[c + 1..d]
  {
    hide Quoted, OccursAt, NoTick;
    if Contains(t, Quoted(name)) {
      var i :| OccursAt(t, Quoted(name), i);
      var j := NamedFrom(t, i, name);
    }
    if name == t[a + 1..b] { NamedBetween(t, a, b, name); }
    if name == t[b + 1..c] { NamedBetween(t, b, c, name); }
    if name == t[c + 1..d] { NamedBetween(t, c, d, name); }
  }

  /** An occurrence of a name in backticks runs from one backtick to the next. */
  lemma NamedFrom(t: string, i: int, name: string) returns (j: int)
    requires OccursAt(t, Quoted(name), i) && NoTick(name)
    ensures 0 <= i < j < |t| && t[i] == '`' && t[j] == '`' && name == t[i + 1..j]
    ensures forall k :: i < k < j ==> t[k] != '`'
  {
    var q := Quoted(name);
    j := i + |name| + 1;
    OccurrenceChar(t, q, i, 0);
    OccurrenceChar(t, q, i, |name| + 1);
    Inside(t, i, |q|);
    assert q[1..|q| - 1] == name;
    forall k | i < k < j ensures t[k] != '`' {
      OccurrenceChar(t, q, i, k - i);
    }
  }

  lemma Inside(t: string, i: nat, n: nat)
    requires 2 <= n && i + n <= |t|
    ensures t[i..i + n][1..n - 1] == t[i + 1..i + n - 1]
  {
    var whole := t[i..i + n];
    var inner, direct := whole[1..n - 1], t[i + 1..i + n - 1];
    forall k | 0 <= k < n - 2 ensures inner[k] == direct[k] {
      assert inner[k] == whole[1 + k];
    }
    assert inner == direct;
  }

  lemma NamedBetween(t: string, i: nat, j: nat, name: string)
    requires i < j < |t| && t[i] == '`' && t[j] == '`' && name == t[i + 1..j]
    ensures Contains(t, Quoted(name))
  {
    assert t[i..j + 1] == Quoted(name);
    assert OccursAt(t, Quoted(name), i);
  }

  // ---- the generated texts, stretch by stretch ----

  /** What a text consists of between its backticks. */
  function Stretches(t: string): (r: seq<string>)
    ensures r != []
  {
    if t == "" then [""]
    else if t[0] == '`' then [""] + Stretches(t[1..])
    else var rest := Stretches(t[1..]); [[t[0]] + rest[0]] + rest[1..]
  }

  lemma {:induction false} StretchesAt(a: string, t: string)
    requires NoTick(a)
    ensures Stretches(a + "`" + t) == [a] + Stretches(t)
  {
    var s := a + "`" + t;
    if a == "" {
      assert s[1..] == t;
    } else {
      assert s[1..] == a[1..] + "`" + t;
      StretchesAt(a[1..], t);
      assert [a[0]] + a[1..] == a;
      assert ([a[1..]] + Stretches(t))[1..] == Stretches(t);
    }
  }

  lemma {:induction false} StretchesEnd(a: string)
    requires NoTick(a)
    ensures Stretches(a) == [a]
  {
    if a != "" {
      StretchesEnd(a[1..]);
      assert [a[0]] + a[1..] == a;
    }
  }

  lemma FiveStretches(a: string, x: string, b: string, y: string, c: string)
    requires NoTick(a) && NoTick(x) && NoTick(b) && NoTick(y) && NoTick(c)
    ensures Stretches(a + Quoted(x) + b + Quoted(y) + c) == [a, x, b, y, c]
  {
    hide Stretches, NoTick;
    StretchesEnd(c);
    StretchesAt(y, c);
    StretchesAt(b, y + "`" + c);
    StretchesAt(x, b + "`" + (y + "`" + c));
    StretchesAt(a, x + "`" + (b + "`" + (y + "`" + c)));
    SameText(a, x, b, y, c);
  }

  lemma SameText(a: string, x: string, b: string, y: string, c: string)
    ensures a + Quoted(x) + b + Quoted(y) + c == a + "`" + (x + "`" + (b + "`" + (y + "`" + c)))
  {
  }

  /** The text of a write-only attribute: its base first, the API field to set second. */
  lemma WriteOnlyStretches(words: Wording, base: string, field: string)
    requires NoTick(base) && NoTick(field)
    ensures Stretches(WriteOnlyDescription(words, base, field))
            == [words.equivalentOf, base, words.note, field, words.instead]
  {
    FiveStretches(words.equivalentOf, base, words.note, field, words.instead);
  }

  /** The text of a version counter: the write-only form first, the API field to set second. */
  lemma VersionStretches(words: Wording, base: string, field: string)
    requires NoTick(base) && NoTick(field)
    ensures Stretches(WriteOnlyVersionDescription(words, base, field))
            == [words.counterFor, base + "_wo", words.noEffect, field, words.instead]
  {
    FiveStretches(words.counterFor, base + "_wo", words.noEffect, field, words.instead);
  }
}
