/**
 The list of manually configured resources: a slice of patterns filled while ranging over the table of external
 names, and what the patterns accept when they are matched anywhere in a resource name.
 */
module ExternalNames {
  import opened GoStrings

  const PREFIX := "unifi_"

  const END := '$'

  // ---- patterns ----

  /**
   An unanchored regular expression match, for letters, digits and underscores with or without `$` at the end: the
   text matches wherever it occurs, and `$` only lets it match where the subject ends.
   */
  predicate Matches(pattern: string, subject: string)
  {
    if pattern != "" && pattern[|pattern| - 1] == END
    then var text := pattern[..|pattern| - 1];
         exists k :: OccursAt(subject, text, k) && k + |text| == |subject|
    else Contains(subject, pattern)
  }

  ghost predicate Accepts(patterns: seq<string>, subject: string) {
    exists pattern :: pattern in patterns && Matches(pattern, subject)
  }

  function Anchored(name: string): string {
    name + [END]
  }

  function Patterns(names: set<string>): set<string> {
    set name | name in names :: Anchored(name)
  }

  /** An anchored plain name matches exactly the subjects that end with it. */
  lemma AnchoredMatches(name: string, subject: string)
    ensures Matches(Anchored(name), subject) <==> exists k :: 0 <= k <= |subject| && subject[k..] == name
  {
    var pattern := Anchored(name);
    assert pattern[..|pattern| - 1] == name;
    if Matches(pattern, subject) {
      var k :| OccursAt(subject, name, k) && k + |name| == |subject|;
      assert subject[k..] == subject[k..k + |name|];
    }
    if k :| 0 <= k <= |subject| && subject[k..] == name {
      assert OccursAt(subject, name, k);
    }
  }

  // ---- filling the list ----

  /** ExternalNameConfigured: the order is that of the map, which is arbitrary; every name gives one pattern. */
  method ExternalNameConfigured<Configuration>(configs: map<string, Configuration>) returns (l: array<string>)
    ensures fresh(l) && ListsOnce(l[..], configs.Keys) && l.Length == |configs.Keys|
    ensures forall name :: name in configs ==> name + "$" in l[..]
    ensures forall pattern :: pattern in l[..] ==> exists name :: name in configs && pattern == name + "$"
    ensures forall i, j :: 0 <= i < j < |l[..]| ==> l[..][i] != l[..][j]
  {
    hide ListsOnce, Anchored, Patterns;
    var names := configs.Keys;
    l := new string[|names|];
    var i := 0;
    ghost var done: set<string>, filled: seq<string> := {}, [];
    NothingListed();
    while names != {}
      invariant names <= configs.Keys && done == configs.Keys - names
      invariant i == |filled| && i + |names| == l.Length && l[..i] == filled
      invariant ListsOnce(filled, done)
      decreases |names|
    {
      var name :| name in names;
      OneMore(filled, done, name);
      l[i] := Anchored(name);
      filled, done := filled + [l[i]], done + {name};
      names, i := names - {name}, i + 1;
    }
    assert l[..] == filled && done == configs.Keys;
    EachOnce(l[..], configs.Keys);
  }

  /** The list in so many words. */
  lemma EachOnce(list: seq<string>, names: set<string>)
    requires ListsOnce(list, names)
    ensures |list| == |names|
    ensures forall name :: name in names ==> name + "$" in list
    ensures forall pattern :: pattern in list ==> exists name :: name in names && pattern == name + "$"
    ensures forall i, j :: 0 <= i < j < |list| ==> list[i] != list[j]
  {
    ListOfSet(list, Patterns(names));
    PatternCount(names);
    forall name | name in names ensures name + "$" in list {
      assert Anchored(name) in Patterns(names) && Anchored(name) == name + "$";
    }
    forall pattern | pattern in list ensures exists name :: name in names && pattern == name + "$" {
      assert pattern in Patterns(names);
      var name :| name in names && Anchored(name) == pattern;
      assert pattern == name + "$";
    }
  }

  lemma {:induction false} PatternCount(names: set<string>)
    ensures |Patterns(names)| == |names|
    decreases |names|
  {
    if names == {} {
      assert Patterns(names) == {};
    } else {
      var name :| name in names;
      PatternCount(names - {name});
      FreshPattern(names - {name}, name);
      assert names == names - {name} + {name};
    }
  }

  lemma NothingListed()
    ensures ListsOnce([], {})
  {
    assert Patterns({}) == {};
  }

  /** The pattern of every name once, and nothing else, in any order. */
  ghost predicate ListsOnce(list: seq<string>, names: set<string>) {
    multiset(list) == multiset(Patterns(names))
  }

  lemma OneMore(list: seq<string>, names: set<string>, name: string)
    requires ListsOnce(list, names) && name !in names
    ensures ListsOnce(list + [Anchored(name)], names + {name})
  {
    FreshPattern(names, name);
    SetGrows(Patterns(names), Anchored(name));
  }

  lemma SetGrows<T>(elements: set<T>, x: T)
    requires x !in elements
    ensures multiset(elements + {x}) == multiset(elements) + multiset{x}
  {
  }

  lemma FreshPattern(names: set<string>, name: string)
    requires name !in names
    ensures Anchored(name) !in Patterns(names)
    ensures Patterns(names + {name}) == Patterns(names) + {Anchored(name)}
  {
    forall n | n in names ensures Anchored(n) != Anchored(name) {
      assert Anchored(n)[..|n|] == n && Anchored(name)[..|name|] == name;
    }
  }

  /** A list with the elements of a set, each once, repeats nothing. */
  lemma ListOfSet<T>(list: seq<T>, elements: set<T>)
    requires multiset(list) == multiset(elements)
    ensures |list| == |elements|
    ensures forall x :: x in list <==> x in elements
    ensures forall i, j :: 0 <= i < j < |list| ==> list[i] != list[j]
  {
    assert |multiset(list)| == |list| && |multiset(elements)| == |elements|;
    forall x ensures x in list <==> x in elements {
      assert x in multiset(list) <==> x in multiset(elements);
    }
    forall i, j | 0 <= i < j < |list| ensures list[i] != list[j] {
      assert list == list[..j] + list[j..];
      assert list[i] == list[..j][i] && list[j] == list[j..][0];
      assert list[i] in list[..j] && list[j] in list[j..];
      assert multiset(list)[list[i]] == multiset(list[..j])[list[i]] + multiset(list[j..])[list[i]];
    }
  }

  // ---- what the list accepts ----

  /**
   The patterns accept the names of the table and every name that continues one of them to the left; because all
   names begin with the prefix, such a name has the prefix at a later position.
   */
  lemma AcceptedNames(names: set<string>, list: seq<string>, subject: string)
    requires ListsOnce(list, names)
    requires forall name :: name in names ==> OccursAt(name, PREFIX, 0)
    ensures Accepts(list, subject)
            <==> subject in names || exists k :: 0 < k && OccursAt(subject, PREFIX, k) && subject[k..] in names
  {
    ListOfSet(list, Patterns(names));
    if Accepts(list, subject) {
      var pattern :| pattern in list && Matches(pattern, subject);
      assert pattern in Patterns(names);
      var name :| name in names && pattern == Anchored(name);
      AnchoredMatches(name, subject);
      var k :| 0 <= k <= |subject| && subject[k..] == name;
      Shifted(subject, k);
      if k == 0 { assert subject[0..] == subject; }
    }
    forall k | 0 <= k <= |subject| && subject[k..] in names ensures Accepts(list, subject) {
      AnchoredMatches(subject[k..], subject);
      assert Anchored(subject[k..]) in Patterns(names) && Anchored(subject[k..]) in list;
    }
    assert subject[0..] == subject;
  }

  lemma Shifted(subject: string, k: nat)
    requires k <= |subject| && OccursAt(subject[k..], PREFIX, 0)
    ensures OccursAt(subject, PREFIX, k)
  {
    assert subject[k..][0..|PREFIX|] == subject[k..k + |PREFIX|];
  }

  /** Where the prefix occurs only at the beginning of a name, the list accepts it exactly if the table has it. */
  lemma ExactOnPrefixed(names: set<string>, list: seq<string>, subject: string)
    requires ListsOnce(list, names)
    requires forall name :: name in names ==> OccursAt(name, PREFIX, 0)
    requires forall k :: OccursAt(subject, PREFIX, k) ==> k == 0
    ensures Accepts(list, subject) <==> subject in names
  {
    AcceptedNames(names, list, subject);
  }

  /** Elsewhere it may accept more: the `$` only anchors the end. */
  lemma NotExact(names: set<string>, list: seq<string>)
    requires ListsOnce(list, names)
    requires "unifi_account" in names && "unifi_my_unifi_account" !in names
    ensures Accepts(list, "unifi_my_unifi_account")
  {
    ListOfSet(list, Patterns(names));
    AnchoredMatches("unifi_account", "unifi_my_unifi_account");
    assert "unifi_my_unifi_account"[9..] == "unifi_account";
    assert Anchored("unifi_account") in Patterns(names);
  }
}
