/**
 `withoutSentencesNaming` of config/write_only.go: drop from a description every sentence that names an
 attribute in backticks, keeping a clean clause before an em dash.
 */
module Sentences {
  import opened Wrappers
  import opened GoStrings

  const STOP: string := ". "
  const DASH: string := " \U{2014} "

  function Quoted(name: string): string {
    "`" + name + "`"
  }

  /** What the loop appends for one sentence: one piece, or none. */
  function Survivor(sentence: string, quoted: string): seq<string> {
    if !Contains(sentence, quoted) then
      [sentence]
    else match Before(sentence, DASH)
      case Some(clause) => if !Contains(clause, quoted) then [TrimSpace(clause) + STOP] else []
      case None => []
  }

  function Kept(sentences: seq<string>, quoted: string): seq<string> {
    if sentences == [] then [] else Survivor(sentences[0], quoted) + Kept(sentences[1..], quoted)
  }

  /** What one sentence contributes to the joined text. */
  function Contribution(sentence: string, quoted: string): string {
    var kept := Survivor(sentence, quoted);
    if kept == [] then "" else kept[0]
  }

  /** The text kept of a description, before the final trim: sentence by sentence, without a list of pieces. */
  function Survivors(description: string, quoted: string): string
    decreases |description|
  {
    var m := Index(description, STOP);
    if m < 0 then
      Contribution(description, quoted)
    else
      Contribution(description[..m + 2], quoted) + Survivors(description[m + 2..], quoted)
  }

  function Filtered(description: string, name: string): string {
    if !Contains(description, Quoted(name)) then description else TrimSpace(Survivors(description, Quoted(name)))
  }

  method WithoutSentencesNaming(description: string, attributeName: string) returns (result: string)
    ensures result == Filtered(description, attributeName)
    ensures Contains(result, Quoted(attributeName))
            <==> Contains(attributeName, STOP) && Contains(description, Quoted(attributeName))
    ensures Contains(description, Quoted(attributeName)) && !Contains(attributeName, STOP) ==> |result| < |description|
    ensures if Contains(description, Quoted(attributeName))
            then exists lo, hi :: Trimmed(Survivors(description, Quoted(attributeName)), lo, hi, result)
            else result == description
  {
    FilteredTrims(description, attributeName);
    FilteredStillNames(description, attributeName);
    FilteredShrinks(description, attributeName);
    JoinedKept(description, Quoted(attributeName));
    var quoted := Quoted(attributeName);
    if !Contains(description, quoted) {
      return description;
    }
    var kept: seq<string> := [];
    var sentences := SplitAfter(description, STOP);
    for i := 0 to |sentences|
      invariant kept + Kept(sentences[i..], quoted) == Kept(sentences, quoted)
    {
      KeptFrom(sentences, i, quoted);
      ghost var before := kept;
      var sentence := sentences[i];
      if !Contains(sentence, quoted) {
        kept := kept + [sentence];
      } else {
        var clause := Before(sentence, DASH);
        if clause.Some? && !Contains(clause.value, quoted) {
          kept := kept + [TrimSpace(clause.value) + STOP];
        }
      }
      Regroup(before, Survivor(sentence, quoted), Kept(sentences[i + 1..], quoted));
      assert kept == before + Survivor(sentence, quoted);
    }
    assert sentences[|sentences|..] == [] && kept == Kept(sentences, quoted);
    return TrimSpace(Concat(kept));
  }

  /** `t` is what is left of `s` between `lo` and `hi`: no white space at its ends, and nothing else around it. */
  ghost predicate Trimmed(s: string, lo: nat, hi: nat, t: string) {
    && lo <= hi <= |s| && t == s[lo..hi]
    && (forall k :: 0 <= k < lo || hi <= k < |s| ==> IsSpace(s[k]))
    && (t != "" ==> !IsSpace(t[0]) && !IsSpace(t[|t| - 1]))
  }

  /** A description that names the attribute becomes its survivors, trimmed; any other stays as it is. */
  lemma FilteredTrims(description: string, name: string)
    ensures if Contains(description, Quoted(name))
            then exists lo, hi :: Trimmed(Survivors(description, Quoted(name)), lo, hi, Filtered(description, name))
            else Filtered(description, name) == description
  {
    var lo, hi := TrimSpaceSlice(Survivors(description, Quoted(name)));
    if Contains(description, Quoted(name)) {
      assert Trimmed(Survivors(description, Quoted(name)), lo, hi, Filtered(description, name));
    }
  }

  lemma Regroup<T>(a: seq<T>, b: seq<T>, c: seq<T>)
    ensures (a + b) + c == a + (b + c)
  {
  }

  lemma KeptFrom(sentences: seq<string>, i: nat, quoted: string)
    requires i < |sentences|
    ensures Kept(sentences[i..], quoted)
            == Survivor(sentences[i], quoted) + Kept(sentences[i + 1..], quoted)
  {
    assert sentences[i..][1..] == sentences[i + 1..];
  }

  /** Splitting, selecting and joining the pieces is the same as going through the text sentence by sentence. */
  lemma {:induction false} JoinedKept(s: string, quoted: string)
    ensures Concat(Kept(SplitAfter(s, STOP), quoted)) == Survivors(s, quoted)
    decreases |s|
  {
    var m := Index(s, STOP);
    if m < 0 {
      assert [s][1..] == [];
      KeptHead([s], quoted);
    } else {
      var rest := SplitAfter(s[m + 2..], STOP);
      var pieces := [s[..m + 2]] + rest;
      assert SplitAfter(s, STOP) == pieces && pieces[1..] == rest;
      KeptHead(pieces, quoted);
      JoinedKept(s[m + 2..], quoted);
    }
  }

  lemma KeptHead(sentences: seq<string>, quoted: string)
    requires sentences != []
    ensures Concat(Kept(sentences, quoted)) == Contribution(sentences[0], quoted) + Concat(Kept(sentences[1..], quoted))
  {
    var rest := Kept(sentences[1..], quoted);
    if Survivor(sentences[0], quoted) == [] {
      assert Kept(sentences, quoted) == rest;
    } else {
      assert Kept(sentences, quoted)[1..] == rest;
    }
  }

  predicate EndsWithStop(s: string) {
    2 <= |s| && OccursAt(s, STOP, |s| - 2)
  }

  // ---- occurrences of a quoted name ----

  lemma QuotedHasStop(name: string)
    ensures Contains(Quoted(name), STOP) <==> Contains(name, STOP)
  {
    var q := Quoted(name);
    assert q[1..|q| - 1] == name;
    if Contains(q, STOP) {
      var i :| OccursAt(q, STOP, i);
      OccurrenceChar(q, STOP, i, 0);
      OccurrenceChar(q, STOP, i, 1);
      OccursInSlice(q, STOP, 1, |q| - 1, i - 1);
    }
    if Contains(name, STOP) {
      var i :| OccursAt(name, STOP, i);
      OccursInSlice(q, STOP, 1, |q| - 1, i);
    }
  }

  /** An occurrence of a quoted name never begins or ends inside a sentence stop. */
  lemma OccurrenceAvoidsStop(s: string, name: string, i: int, m: int)
    requires OccursAt(s, Quoted(name), i) && OccursAt(s, STOP, m) && !Contains(name, STOP)
    ensures i + |Quoted(name)| <= m || m + 2 <= i
  {
    var q := Quoted(name);
    OccurrenceChar(s, q, i, 0);
    OccurrenceChar(s, q, i, |q| - 1);
    OccurrenceChar(s, STOP, m, 0);
    OccurrenceChar(s, STOP, m, 1);
    if i <= m && m + 2 <= i + |q| {
      OccursInSlice(s, STOP, i, i + |q|, m - i);
      QuotedHasStop(name);
    }
  }

  /** No occurrence straddles the join after a sentence stop. */
  lemma NoStraddle(head: string, rest: string, name: string)
    requires !Contains(name, STOP) && EndsWithStop(head)
    ensures Contains(head + rest, Quoted(name)) <==> Contains(head, Quoted(name)) || Contains(rest, Quoted(name))
  {
    var q, s := Quoted(name), head + rest;
    OccursInSum(head, rest, STOP, |head| - 2);
    if Contains(s, q) {
      var i :| OccursAt(s, q, i);
      OccurrenceAvoidsStop(s, name, i, |head| - 2);
      OccursInSum(head, rest, q, i);
    }
    if Contains(head, q) {
      var i :| OccursAt(head, q, i);
      OccursInSum(head, rest, q, i);
    }
    if Contains(rest, q) {
      var i :| OccursAt(rest, q, i);
      OccursInSum(head, rest, q, |head| + i);
    }
  }

  lemma StopAdded(clause: string, name: string)
    ensures Contains(clause + STOP, Quoted(name)) ==> Contains(clause, Quoted(name))
    ensures OccursAt(clause + STOP, STOP, |clause|)
  {
    var q, s := Quoted(name), clause + STOP;
    OccursInSum(clause, STOP, STOP, |clause|);
    if Contains(s, q) {
      var i :| OccursAt(s, q, i);
      OccurrenceChar(s, q, i, |q| - 1);
      OccursInSum(clause, STOP, q, i);
    }
  }

  lemma QuotedTrims(s: string, name: string)
    ensures Contains(TrimSpace(s), Quoted(name)) <==> Contains(s, Quoted(name))
  {
    TrimSpaceContains(s, Quoted(name));
  }

  // ---- the survivors name nothing ----

  lemma ContributionClean(sentence: string, name: string)
    ensures !Contains(Contribution(sentence, Quoted(name)), Quoted(name))
  {
    var q := Quoted(name);
    match Before(sentence, DASH)
    case Some(clause) =>
      QuotedTrims(clause, name);
      StopAdded(TrimSpace(clause), name);
    case None =>
  }

  /** A contribution that is not the last one ends in a sentence stop, or is nothing at all. */
  lemma ContributionStops(sentence: string, name: string)
    requires EndsWithStop(sentence)
    ensures var c := Contribution(sentence, Quoted(name)); c == "" || EndsWithStop(c)
  {
    match Before(sentence, DASH)
    case Some(clause) => StopAdded(TrimSpace(clause), name);
    case None =>
  }

  lemma {:induction false} SurvivorsClean(s: string, name: string)
    requires !Contains(name, STOP)
    ensures !Contains(Survivors(s, Quoted(name)), Quoted(name))
    decreases |s|
  {
    var q, m := Quoted(name), Index(s, STOP);
    if m < 0 {
      ContributionClean(s, name);
    } else {
      var head, rest := s[..m + 2], s[m + 2..];
      SurvivorsClean(rest, name);
      ContributionClean(head, name);
      OccursInSlice(s, STOP, 0, m + 2, m);
      ContributionStops(head, name);
      var c := Contribution(head, q);
      if c == "" {
        assert c + Survivors(rest, q) == Survivors(rest, q);
      } else {
        NoStraddle(c, Survivors(rest, q), name);
      }
    }
  }

  /** A name that itself contains a sentence stop is never found inside one sentence. */
  lemma {:induction false} StopInNameKeepsAll(s: string, name: string)
    requires Contains(name, STOP) || !Contains(s, Quoted(name))
    ensures Survivors(s, Quoted(name)) == s
    decreases |s|
  {
    hide Survivors, Contribution, Contains, Quoted;
    var q, m := Quoted(name), Index(s, STOP);
    if m < 0 {
      if Contains(name, STOP) { NoStopNoName(s, name); }
      LastSurvivor(s, q);
      Unnamed(s, q);
    } else {
      var head, rest := s[..m + 2], s[m + 2..];
      if Contains(name, STOP) {
        HeadHidesNoStop(s, name);
      } else {
        PieceNames(s, 0, m + 2, q);
        PieceNames(s, m + 2, |s|, q);
        assert s[0..m + 2] == head && s[m + 2..|s|] == rest;
      }
      FirstSurvivor(s, q);
      Unnamed(head, q);
      StopInNameKeepsAll(rest, name);
      assert head + rest == s;
    }
  }

  lemma Unnamed(sentence: string, quoted: string)
    requires !Contains(sentence, quoted)
    ensures Contribution(sentence, quoted) == sentence
  {
  }

  /** What a piece names, the whole names. */
  lemma PieceNames(s: string, lo: nat, hi: nat, quoted: string)
    requires lo <= hi <= |s|
    ensures Contains(s[lo..hi], quoted) ==> Contains(s, quoted)
  {
    if Contains(s[lo..hi], quoted) {
      var i :| OccursAt(s[lo..hi], quoted, i);
      OccursInSlice(s, quoted, lo, hi, i);
    }
  }

  /** Up to its first stop, a text holds no quoted name with a stop inside. */
  lemma HeadHidesNoStop(s: string, name: string)
    requires Index(s, STOP) >= 0 && Contains(name, STOP)
    ensures !Contains(s[..Index(s, STOP) + 2], Quoted(name))
  {
    var q, m := Quoted(name), Index(s, STOP);
    QuotedHasStop(name);
    if Contains(s[..m + 2], q) {
      var i :| OccursAt(s[..m + 2], q, i);
      OccursInSlice(s, q, 0, m + 2, i);
      var j :| OccursAt(q, STOP, j);
      OccurrenceChar(q, STOP, j, 1);
      OccursWithin(s, q, i, STOP, j);
    }
  }

  lemma NoStopNoName(s: string, name: string)
    requires Contains(name, STOP) && !Contains(s, STOP)
    ensures !Contains(s, Quoted(name))
  {
    var q := Quoted(name);
    QuotedHasStop(name);
    if Contains(s, q) {
      var i :| OccursAt(s, q, i);
      var j :| OccursAt(q, STOP, j);
      OccursWithin(s, q, i, STOP, j);
    }
  }

  /**
   The advice is gone exactly when it was never there or the name can be found inside one sentence. For the
   attribute names of a schema, which hold no ". ", the result never contains the backticked name.
   */
  lemma FilteredStillNames(description: string, name: string)
    ensures Contains(Filtered(description, name), Quoted(name))
            <==> Contains(name, STOP) && Contains(description, Quoted(name))
  {
    var q := Quoted(name);
    if Contains(description, q) {
      QuotedTrims(Survivors(description, q), name);
      if Contains(name, STOP) {
        StopInNameKeepsAll(description, name);
      } else {
        SurvivorsClean(description, name);
      }
    }
  }

  /** A description that the guarantee misses: the stop inside the name hides the advice from every sentence. */
  lemma StopInNameEscapes()
    ensures var d := Quoted("a. b_wo");
            Contains(d, Quoted("a. b_wo")) && Contains(Filtered(d, "a. b_wo"), Quoted("a. b_wo"))
  {
    var d := Quoted("a. b_wo");
    assert OccursAt("a. b_wo", STOP, 1);
    assert OccursAt(d, Quoted("a. b_wo"), 0);
    FilteredStillNames(d, "a. b_wo");
  }

  /** Filtering twice by one name changes nothing more, whatever the name. */
  lemma FilteredIdempotent(description: string, name: string)
    ensures Filtered(Filtered(description, name), name) == Filtered(description, name)
  {
    FilteredStillNames(description, name);
    if Contains(Filtered(description, name), Quoted(name)) {
      StopInNameKeepsAll(description, name);
      StopInNameKeepsAll(TrimSpace(description), name);
      TrimSpaceIdempotent(description);
    }
  }

  /** The early return agrees with the loop, which would keep every sentence and then trim. */
  lemma {:induction false} EarlyReturnAgrees(description: string, name: string)
    requires !Contains(description, Quoted(name))
    ensures Filtered(description, name) == Survivors(description, Quoted(name))
  {
    StopInNameKeepsAll(description, name);
  }

  // ---- something is lost, and only what must be ----

  lemma ContributionShrinks(sentence: string, quoted: string)
    requires quoted != ""
    ensures |Contribution(sentence, quoted)| <= |sentence|
    ensures Contains(sentence, quoted) ==> |Contribution(sentence, quoted)| < |sentence|
  {
    if Contains(sentence, quoted) {
      match Before(sentence, DASH)
      case Some(clause) =>
        var lo, hi := TrimSpaceSlice(clause);
      case None =>
    }
  }

  lemma {:induction false} SurvivorsShrink(s: string, name: string)
    ensures |Survivors(s, Quoted(name))| <= |s|
    ensures Contains(s, Quoted(name)) && !Contains(name, STOP) ==> |Survivors(s, Quoted(name))| < |s|
    decreases |s|
  {
    hide Survivors, Contribution, Contains;
    var q, m := Quoted(name), Index(s, STOP);
    if m < 0 {
      ContributionShrinks(s, q);
      LastSurvivor(s, q);
    } else {
      FirstSurvivor(s, q);
      var head, rest := s[..m + 2], s[m + 2..];
      ContributionShrinks(head, q);
      SurvivorsShrink(rest, name);
      if Contains(s, q) && !Contains(name, STOP) {
        assert s == head + rest;
        OccursInSlice(s, STOP, 0, m + 2, m);
        NoStraddle(head, rest, name);
      }
    }
  }

  /** Whenever the name is there, the result is strictly shorter: some sentence did name it. */
  lemma FilteredShrinks(description: string, name: string)
    ensures |Filtered(description, name)| <= |description|
    ensures Contains(description, Quoted(name)) && !Contains(name, STOP)
            ==> |Filtered(description, name)| < |description|
  {
    SurvivorsShrink(description, name);
    var lo, hi := TrimSpaceSlice(Survivors(description, Quoted(name)));
  }

  /**
   Sentences are judged one by one: the text after a sentence stop has no influence on what is kept before it,
   nor the other way round, and the two results appear in order.
   */
  lemma {:induction false} SentencesIndependent(before: string, after: string, quoted: string)
    requires EndsWithStop(before)
    ensures Survivors(before + after, quoted) == Survivors(before, quoted) + Survivors(after, quoted)
    decreases |before|
  {
    hide Survivors, Contribution, Contains;
    var m := Index(before, STOP);
    FirstStopInSum(before, after);
    FirstSurvivor(before, quoted);
    FirstSurvivor(before + after, quoted);
    var head, rest := before[..m + 2], before[m + 2..];
    if rest == "" {
      assert rest + after == after;
      EmptySurvives(after, quoted);
    } else {
      StopsApart(before, m);
      SentencesIndependent(rest, after, quoted);
    }
    Regroup(Contribution(head, quoted), Survivors(rest, quoted), Survivors(after, quoted));
  }

  lemma FirstSurvivor(s: string, quoted: string)
    requires Index(s, STOP) >= 0
    ensures var m := Index(s, STOP);
            Survivors(s, quoted) == Contribution(s[..m + 2], quoted) + Survivors(s[m + 2..], quoted)
  {
  }

  lemma LastSurvivor(s: string, quoted: string)
    requires Index(s, STOP) < 0
    ensures Survivors(s, quoted) == Contribution(s, quoted)
  {
  }

  lemma FirstStopInSum(before: string, after: string)
    requires Contains(before, STOP)
    ensures var s, m := before + after, Index(before, STOP);
            Index(s, STOP) == m && s[..m + 2] == before[..m + 2] && s[m + 2..] == before[m + 2..] + after
  {
    OccursInSum(before, after, STOP, Index(before, STOP));
    OccursInSum(before, after, STOP, Index(before + after, STOP));
  }

  /** Sentence stops do not overlap, so cutting after one keeps a later one whole. */
  lemma StopsApart(s: string, m: nat)
    requires EndsWithStop(s) && OccursAt(s, STOP, m) && m + 2 < |s|
    ensures EndsWithStop(s[m + 2..])
  {
    OccurrenceChar(s, STOP, m, 1);
    OccurrenceChar(s, STOP, |s| - 2, 0);
    OccursInSlice(s, STOP, m + 2, |s|, |s| - m - 4);
  }

  /**
   What becomes of a sentence of a description, be it the last, which has no stop, or another: kept as it is, reduced
   to its clean clause before the first em dash, or dropped. Everything around it is treated as if the sentence were
   not there.
   */
  lemma {:induction false} SentenceVerdict(before: string, sentence: string, after: string, quoted: string)
      returns (verdict: string)
    requires before == "" || EndsWithStop(before)
    requires EndsAtFirst(sentence, STOP) || (after == "" && !Contains(sentence, STOP))
    ensures Survivors(before + sentence + after, quoted)
            == Survivors(before, quoted) + verdict + Survivors(after, quoted)
    ensures !Contains(sentence, quoted) ==> verdict == sentence
    ensures Contains(sentence, quoted) ==>
              match Before(sentence, " \U{2014} ")
              case Some(clause) => verdict == if Contains(clause, quoted) then "" else TrimSpace(clause) + ". "
              case None => verdict == ""
  {
    verdict := Contribution(sentence, quoted);
    if EndsAtFirst(sentence, STOP) {
      HeadSentence(sentence, after, quoted);
    } else {
      LastSentence(sentence, quoted);
    }
    Regroup(before, sentence, after);
    Regroup(Survivors(before, quoted), verdict, Survivors(after, quoted));
    if before == "" {
      EmptySurvives(sentence + after, quoted);
    } else {
      SentencesIndependent(before, sentence + after, quoted);
    }
  }

  lemma EmptySurvives(after: string, quoted: string)
    ensures Survivors("" + after, quoted) == Survivors("", quoted) + Survivors(after, quoted)
  {
    assert Survivors("", quoted) == "";
    assert "" + after == after;
  }

  lemma LastSentence(sentence: string, quoted: string)
    requires !Contains(sentence, STOP)
    ensures Survivors(sentence + "", quoted) == Contribution(sentence, quoted) + Survivors("", quoted)
  {
    LastSurvivor(sentence, quoted);
    EmptySurvives("", quoted);
    assert sentence + "" == sentence;
  }

  lemma HeadSentence(sentence: string, after: string, quoted: string)
    requires EndsAtFirst(sentence, STOP)
    ensures Survivors(sentence + after, quoted) == Contribution(sentence, quoted) + Survivors(after, quoted)
  {
    FirstStopInSum(sentence, after);
    assert sentence[|sentence|..] + after == after && sentence[..|sentence|] == sentence;
  }

  // ---- every unnamed sentence stays ----

  /** Where the pieces are in the joined text. */
  ghost predicate InOrder(pieces: seq<string>, quoted: string, text: string, at: seq<int>) {
    && |at| == |pieces|
    && (forall i :: 0 <= i < |pieces| && !Contains(pieces[i], quoted) ==> OccursAt(text, pieces[i], at[i]))
    && (forall i, j :: 0 <= i < j < |pieces| && !Contains(pieces[i], quoted) && !Contains(pieces[j], quoted)
                       ==> at[i] + |pieces[i]| <= at[j])
  }

  lemma {:induction false} PiecesStay(pieces: seq<string>, quoted: string) returns (at: seq<int>)
    ensures InOrder(pieces, quoted, Concat(Kept(pieces, quoted)), at)
    ensures forall i :: 0 <= i < |at| ==> 0 <= at[i]
  {
    if pieces == [] {
      at := [];
    } else {
      var later := PiecesStay(pieces[1..], quoted);
      KeptHead(pieces, quoted);
      at := OneMorePiece(pieces, quoted, Contribution(pieces[0], quoted), Concat(Kept(pieces[1..], quoted)), later);
    }
  }

  lemma OneMorePiece(pieces: seq<string>, quoted: string, first: string, rest: string, later: seq<int>)
      returns (at: seq<int>)
    requires pieces != [] && (!Contains(pieces[0], quoted) ==> first == pieces[0])
    requires InOrder(pieces[1..], quoted, rest, later) && forall i :: 0 <= i < |later| ==> 0 <= later[i]
    ensures InOrder(pieces, quoted, first + rest, at) && forall i :: 0 <= i < |at| ==> 0 <= at[i]
  {
    hide Contains, OccursAt;
    at := [0] + seq(|later|, i requires 0 <= i < |later| => |first| + later[i]);
    var tail := pieces[1..];
    forall i | 0 <= i < |pieces| && !Contains(pieces[i], quoted) ensures OccursAt(first + rest, pieces[i], at[i]) {
      if i == 0 {
        PrefixOccurs(first, rest);
      } else {
        assert pieces[i] == tail[i - 1];
        SuffixOccurs(first, rest, pieces[i], later[i - 1]);
      }
    }
    forall i, j | 0 <= i < j < |pieces| && !Contains(pieces[i], quoted) && !Contains(pieces[j], quoted)
      ensures at[i] + |pieces[i]| <= at[j]
    {
      assert pieces[j] == tail[j - 1];
      if i > 0 { assert pieces[i] == tail[i - 1]; }
    }
  }

  lemma PrefixOccurs(first: string, rest: string)
    ensures OccursAt(first + rest, first, 0)
  {
  }

  lemma SuffixOccurs(first: string, rest: string, sub: string, i: int)
    requires OccursAt(rest, sub, i)
    ensures OccursAt(first + rest, sub, |first| + i)
  {
    OccursInSum(first, rest, sub, |first| + i);
  }

  /** The trimmed pieces that do not name the attribute are in the text, one after the other. */
  ghost predicate SentencesIn(pieces: seq<string>, quoted: string, text: string, at: seq<int>) {
    && |at| == |pieces|
    && (forall i :: 0 <= i < |pieces| && !Contains(pieces[i], quoted) ==> OccursAt(text, TrimSpace(pieces[i]), at[i]))
    && (forall i, j :: 0 <= i < j < |pieces| && !Contains(pieces[i], quoted) && !Contains(pieces[j], quoted)
                       ==> at[i] + |TrimSpace(pieces[i])| <= at[j])
  }

  /** Conservation: every sentence that does not name the attribute is still there, and in its order. */
  lemma SentencesStay(description: string, name: string)
    ensures exists at :: SentencesIn(SplitAfter(description, STOP), Quoted(name), Filtered(description, name), at)
  {
    var pieces, q := SplitAfter(description, STOP), Quoted(name);
    var kept := Survivors(description, q);
    JoinedKept(description, q);
    var where := PiecesStay(pieces, q);
    hide SplitAfter, Survivors, Contains, Quoted, Kept;
    if Contains(description, q) {
      var lo, hi := TrimSpaceSlice(kept);
      var at := TrimmedStay(pieces, q, kept, where, lo, hi);
      assert SentencesIn(pieces, q, Filtered(description, name), at);
    } else {
      EarlyReturnAgrees(description, name);
      var at := TrimmedStay(pieces, q, kept, where, 0, |kept|);
      assert kept[0..|kept|] == kept;
      assert SentencesIn(pieces, q, Filtered(description, name), at);
    }
  }

  /** Trimming the pieces, and the text around them, leaves them where they are. */
  lemma TrimmedStay(pieces: seq<string>, quoted: string, text: string, where: seq<int>, lo: nat, hi: nat)
      returns (at: seq<int>)
    requires InOrder(pieces, quoted, text, where)
    requires lo <= hi <= |text| && forall k :: 0 <= k < lo || hi <= k < |text| ==> IsSpace(text[k])
    ensures SentencesIn(pieces, quoted, text[lo..hi], at)
  {
    at := seq(|pieces|, i requires 0 <= i < |pieces| => PlaceOf(pieces[i], where[i], lo, hi));
    forall i | 0 <= i < |pieces| && !Contains(pieces[i], quoted)
      ensures OccursAt(text[lo..hi], TrimSpace(pieces[i]), at[i])
    {
      TrimmedPlace(pieces[i], text, where[i], lo, hi);
    }
    forall i, j | 0 <= i < j < |pieces| && !Contains(pieces[i], quoted) && !Contains(pieces[j], quoted)
      ensures at[i] + |TrimSpace(pieces[i])| <= at[j]
    {
      TrimmedPlace(pieces[i], text, where[i], lo, hi);
      TrimmedPlace(pieces[j], text, where[j], lo, hi);
    }
  }

  /** Where a trimmed piece begins in the trimmed text, from where it was before. */
  ghost function PlaceOf(piece: string, i: int, lo: nat, hi: nat): int
    requires lo <= hi
  {
    var start := i + |piece| - |TrimLeft(piece)|;
    (if start < lo then lo else if start > hi then hi else start) - lo
  }

  lemma TrimmedPlace(piece: string, text: string, i: int, lo: nat, hi: nat)
    requires OccursAt(text, piece, i)
    requires lo <= hi <= |text| && forall k :: 0 <= k < lo || hi <= k < |text| ==> IsSpace(text[k])
    ensures var place := PlaceOf(piece, i, lo, hi);
            && OccursAt(text[lo..hi], TrimSpace(piece), place)
            && |TrimSpace(piece)| <= |TrimLeft(piece)| <= |piece|
            && (TrimSpace(piece) != "" ==> lo + place == i + |piece| - |TrimLeft(piece)|)
  {
    var a := TrimLeftSlice(piece);
    var n := TrimRightSlice(piece[a..]);
    var t := TrimSpace(piece);
    assert t == piece[a..][..n] == piece[a..a + n];
    assert OccursAt(piece, t, a);
    hide OccursAt, TrimSpace, TrimLeft;
    OccursWithin(text, piece, i, t, a);
    if t != "" {
      assert t[0] == piece[a..][0] && t[n - 1] == piece[a..][n - 1];
      ContentStays(text, t, i + a, lo, hi);
    } else {
      NothingOccurs(text[lo..hi], t, PlaceOf(piece, i, lo, hi));
    }
  }

  lemma NothingOccurs(text: string, t: string, i: nat)
    requires t == "" && i <= |text|
    ensures OccursAt(text, t, i)
  {
  }

  /** What begins and ends with something other than white space is not trimmed away. */
  lemma ContentStays(text: string, t: string, i: int, lo: nat, hi: nat)
    requires OccursAt(text, t, i) && t != "" && !IsSpace(t[0]) && !IsSpace(t[|t| - 1])
    requires lo <= hi <= |text| && forall k :: 0 <= k < lo || hi <= k < |text| ==> IsSpace(text[k])
    ensures lo <= i && i + |t| <= hi && OccursAt(text[lo..hi], t, i - lo)
  {
    OccurrenceChar(text, t, i, 0);
    OccurrenceChar(text, t, i, |t| - 1);
    OccursInSlice(text, t, lo, hi, i - lo);
  }

  // ---- an example ----

  /** One sentence stays, one is cut at its dash, and the blank at the end goes. */
  lemma Example()
    ensures Filtered("K. S \U{2014} `w`", "w") == "K. S."
  {
    hide Survivors, Contains, EndsWithStop, EndsAtFirst;
    var before, sentence, q := "K. ", "S \U{2014} `w`", Quoted("w");
    ExampleParts();
    assert before + sentence + "" == "K. S \U{2014} `w`";
    var verdict := SentenceVerdict(before, sentence, "", q);
    StopInNameKeepsAll(before, "w");
    StopInNameKeepsAll("", "w");
    assert before + verdict + "" == "K. S. ";
    var lo, hi := TrimSpaceSlice("K. S. ");
  }

  lemma ExampleParts()
    ensures EndsWithStop("K. ") && !Contains("K. ", Quoted("w")) && !Contains("", Quoted("w"))
    ensures var sentence := "S \U{2014} `w`";
            !Contains(sentence, STOP) && Contains(sentence, Quoted("w")) && Before(sentence, DASH) == Some("S")
    ensures !Contains("S", Quoted("w")) && TrimSpace("S") == "S"
    ensures Contains("K. S \U{2014} `w`", Quoted("w"))
  {
    NoSuchChar("K. ", Quoted("w"));
    NoSuchChar("", Quoted("w"));
    NoSuchChar("S", Quoted("w"));
    var sentence := "S \U{2014} `w`";
    NoSuchChar(sentence, STOP);
    assert sentence[4..7] == Quoted("w") && sentence[1..4] == DASH && sentence[..1] == "S";
    assert OccursAt(sentence, Quoted("w"), 4) && OccursAt(sentence, DASH, 1);
    OccurrenceChar(sentence, DASH, |Before(sentence, DASH).value|, 1);
    assert "K. S \U{2014} `w`"[7..10] == Quoted("w");
    assert OccursAt("K. S \U{2014} `w`", Quoted("w"), 7);
    var lo, hi := TrimSpaceSlice("S");
    assert "S"[0] == 'S' && !IsSpace('S') && lo == 0 && hi == 1;
  }

  lemma NoSuchChar(s: string, sub: string)
    requires sub != "" && sub[0] !in s
    ensures !Contains(s, sub)
  {
    if Contains(s, sub) {
      var i :| OccursAt(s, sub, i);
      OccurrenceChar(s, sub, i, 0);
    }
  }
}
