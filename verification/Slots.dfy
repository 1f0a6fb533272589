/**
 Reference resolution as a machine over named slots: go through the slots in a fixed order, replace the contents
 of each by the resolver's answer, and stop at the first error. Nothing here depends on what a slot holds.
 */
module Slots {
  import opened Wrappers

  /** How one slot is resolved: a deterministic answer for one state of the API server. */
  type Resolution<!A, !S, !E> = (A, S) -> Result<S, E>

  /** `failedAt` is the slot whose resolution failed, with its error. */
  datatype Outcome<A, S, E> = Outcome(state: map<A, S>, failedAt: Option<(A, E)>)

  ghost predicate Covers<A, S>(state: map<A, S>, order: seq<A>) {
    forall a :: a in order ==> a in state
  }

  predicate NoRepeats<A(==)>(order: seq<A>) {
    forall i, j :: 0 <= i < j < |order| ==> order[i] != order[j]
  }

  function Resolve<A, S, E>(resolve: Resolution<A, S, E>, state: map<A, S>, order: seq<A>): (r: Outcome<A, S, E>)
    requires Covers(state, order)
    ensures r.state.Keys == state.Keys
    decreases |order|
  {
    if order == [] then
      Outcome(state, None)
    else
      match resolve(order[0], state[order[0]])
      case Ok(answer) => Resolve(resolve, state[order[0] := answer], order[1..])
      case Err(error) => Outcome(state, Some((order[0], error)))
  }

  // ---- the reference definition: every slot on its own ----

  ghost predicate Resolvable<A, S, E>(resolve: Resolution<A, S, E>, state: map<A, S>, a: A)
    requires a in state
  {
    resolve(a, state[a]).Ok?
  }

  /** The state in which exactly the slots in `done` hold the answers to their original contents. */
  ghost function Answered<A(!new), S, E>(resolve: Resolution<A, S, E>, state: map<A, S>, done: set<A>): map<A, S> {
    map a | a in state :: if a in done && resolve(a, state[a]).Ok? then resolve(a, state[a]).value else state[a]
  }

  ghost function Elements<A>(order: seq<A>): set<A> {
    set a | a in order
  }

  /** Resolving an order in two parts: the second part only starts if the first one succeeds. */
  lemma {:induction false} ResolveConcat<A, S, E>(resolve: Resolution<A, S, E>, state: map<A, S>, first: seq<A>,
                                                  second: seq<A>)
    requires Covers(state, first) && Covers(state, second)
    ensures Covers(state, first + second)
    ensures Resolve(resolve, state, first + second)
            == var r := Resolve(resolve, state, first);
               if r.failedAt.Some? then r else Resolve(resolve, r.state, second)
    decreases |first|
  {
    if first == [] {
      assert first + second == second;
    } else {
      assert (first + second)[1..] == first[1..] + second;
      match resolve(first[0], state[first[0]])
      case Ok(answer) => ResolveConcat(resolve, state[first[0] := answer], first[1..], second);
      case Err(_) =>
    }
  }

  /** A run that has stopped stays stopped, whatever comes after. */
  lemma ResolveStopped<A, S, E>(resolve: Resolution<A, S, E>, state: map<A, S>, prefix: seq<A>, order: seq<A>)
    requires Covers(state, order) && prefix <= order
    requires Covers(state, prefix) && Resolve(resolve, state, prefix).failedAt.Some?
    ensures Resolve(resolve, state, order) == Resolve(resolve, state, prefix)
  {
    var rest := order[|prefix|..];
    assert order == prefix + rest;
    ResolveConcat(resolve, state, prefix, rest);
  }

  /** One more slot after a run that has not stopped. */
  lemma {:induction false} ResolveNext<A, S, E>(resolve: Resolution<A, S, E>, state: map<A, S>, done: seq<A>, a: A)
    requires Covers(state, done) && a in state && Resolve(resolve, state, done).failedAt.None?
    ensures Covers(state, done + [a])
    ensures var reached := Resolve(resolve, state, done).state;
            Resolve(resolve, state, done + [a])
            == match resolve(a, reached[a])
               case Ok(answer) => Outcome(reached[a := answer], None)
               case Err(error) => Outcome(reached, Some((a, error)))
  {
    ResolveConcat(resolve, state, done, [a]);
    assert [a][1..] == [];
  }

  /**
   Exact prefix: the run stops at the first slot that cannot be resolved from its original contents, everything
   before it is answered, and it and everything after it are untouched.
   */
  lemma {:induction false} ResolveExact<A(!new), S, E>(resolve: Resolution<A, S, E>, state: map<A, S>, order: seq<A>)
      returns (n: nat)
    requires Covers(state, order) && NoRepeats(order)
    ensures n <= |order|
    ensures forall i :: 0 <= i < n ==> Resolvable(resolve, state, order[i])
    ensures n < |order| ==> !Resolvable(resolve, state, order[n])
    ensures Resolve(resolve, state, order)
            == Outcome(Answered(resolve, state, Elements(order[..n])),
                       if n == |order| then None else Some((order[n], resolve(order[n], state[order[n]]).error)))
    decreases |order|
  {
    if order == [] {
      n := 0;
      assert Answered(resolve, state, Elements(order[..0])) == state;
    } else {
      var a := order[0];
      match resolve(a, state[a])
      case Err(_) =>
        n := 0;
        assert Answered(resolve, state, Elements(order[..0])) == state;
      case Ok(answer) =>
        var next, rest := state[a := answer], order[1..];
        var k := ResolveExact(resolve, next, rest);
        n := k + 1;
        assert order[..n] == [a] + rest[..k];
        assert a !in rest;
        assert Elements(order[..n]) == {a} + Elements(rest[..k]);
        assert Answered(resolve, next, Elements(rest[..k])) == Answered(resolve, state, Elements(order[..n]));
        forall i | 0 <= i < n ensures Resolvable(resolve, state, order[i]) {
          if i > 0 { assert order[i] == rest[i - 1] && Resolvable(resolve, next, rest[i - 1]); }
        }
    }
  }

  /** Success in terms of single slots. */
  lemma ResolveSucceeds<A(!new), S, E>(resolve: Resolution<A, S, E>, state: map<A, S>, order: seq<A>)
    requires Covers(state, order) && NoRepeats(order)
    ensures Resolve(resolve, state, order).failedAt.None?
            <==> forall a :: a in order ==> a in state && Resolvable(resolve, state, a)
    ensures Resolve(resolve, state, order).failedAt.None?
            ==> Resolve(resolve, state, order).state == Answered(resolve, state, Elements(order))
  {
    var n := ResolveExact(resolve, state, order);
    if n == |order| {
      assert order[..n] == order;
    } else {
      assert order[n] in order;
    }
  }

  /** Any two orders of the same slots succeed together and then agree on every slot. */
  lemma OrderFree<A(!new), S, E>(resolve: Resolution<A, S, E>, state: map<A, S>, one: seq<A>, other: seq<A>)
    requires Covers(state, one) && NoRepeats(one) && Covers(state, other) && NoRepeats(other)
    requires Elements(one) == Elements(other)
    ensures Resolve(resolve, state, one).failedAt.None? <==> Resolve(resolve, state, other).failedAt.None?
    ensures Resolve(resolve, state, one).failedAt.None?
            ==> Resolve(resolve, state, one).state == Resolve(resolve, state, other).state
  {
    ResolveSucceeds(resolve, state, one);
    ResolveSucceeds(resolve, state, other);
    assert forall a :: a in one <==> a in Elements(one);
    assert forall a :: a in other <==> a in Elements(other);
  }

  /** What one run makes of each slot. */
  lemma EachSlot<A(!new), S, E>(resolve: Resolution<A, S, E>, state: map<A, S>, order: seq<A>)
    requires Covers(state, order) && NoRepeats(order)
    ensures forall a :: a in state ==>
              var after := Resolve(resolve, state, order).state[a];
              after == state[a] || (a in order && resolve(a, state[a]) == Result<S, E>.Ok(after))
    ensures Resolve(resolve, state, order).failedAt.None?
            ==> forall a :: a in order ==>
                  resolve(a, state[a]) == Result<S, E>.Ok(Resolve(resolve, state, order).state[a])
  {
    var n := ResolveExact(resolve, state, order);
    ResolveSucceeds(resolve, state, order);
    assert forall a :: a in Elements(order[..n]) ==> a in order;
    assert forall a :: a in order ==> a in Elements(order);
  }

  // ---- repeated attempts ----

  /** The state after a run of attempts, each against its own state of the API server, errors ignored. */
  function Attempts<A, S, E>(resolvers: seq<Resolution<A, S, E>>, state: map<A, S>, order: seq<A>): (r: map<A, S>)
    requires Covers(state, order)
    ensures r.Keys == state.Keys
    decreases |resolvers|
  {
    if resolvers == [] then state
    else Attempts(resolvers[1..], Resolve(resolvers[0], state, order).state, order)
  }

  /**
   What a resolver must do to leave the answers alone: asked about the original contents of a slot, or about the
   answer once it is stored, it fails or gives that answer. Nothing is said about any other slot or contents.
   */
  ghost predicate Upholds<A(!new), S, E>(r: Resolution<A, S, E>, original: map<A, S>, answers: map<A, S>,
                                         order: seq<A>) {
    forall a | a in order && a in original && a in answers ::
      FailsOrGives(r(a, original[a]), answers[a]) && FailsOrGives(r(a, answers[a]), answers[a])
  }

  ghost predicate FailsOrGives<S, E>(result: Result<S, E>, answer: S) {
    result.Ok? ==> result.value == answer
  }

  /** Every slot holds its original contents or its answer. */
  ghost predicate Between<A(!new), S>(original: map<A, S>, answers: map<A, S>, state: map<A, S>) {
    && state.Keys == original.Keys == answers.Keys
    && forall a :: a in original ==> state[a] == original[a] || state[a] == answers[a]
  }

  lemma AttemptBetween<A(!new), S, E>(r: Resolution<A, S, E>, original: map<A, S>, answers: map<A, S>,
                                      state: map<A, S>, order: seq<A>)
    requires Upholds(r, original, answers, order)
    requires Between(original, answers, state) && Covers(state, order) && NoRepeats(order)
    ensures Between(original, answers, Resolve(r, state, order).state)
  {
    var n := ResolveExact(r, state, order);
    assert forall a :: a in Elements(order[..n]) ==> a in order;
  }

  lemma {:induction false} AttemptsBetween<A(!new), S, E>(resolvers: seq<Resolution<A, S, E>>, original: map<A, S>,
                                                          answers: map<A, S>, state: map<A, S>, order: seq<A>)
    requires forall r :: r in resolvers ==> Upholds(r, original, answers, order)
    requires Between(original, answers, state) && Covers(state, order) && NoRepeats(order)
    ensures Between(original, answers, Attempts(resolvers, state, order))
    decreases |resolvers|
  {
    if resolvers != [] {
      AttemptBetween(resolvers[0], original, answers, state, order);
      AttemptsBetween(resolvers[1..], original, answers, Resolve(resolvers[0], state, order).state, order);
    }
  }

  /**
   Convergence: after any number of failed or successful attempts, one success leaves the state that a single
   successful run from the original would have left.
   */
  lemma Converges<A(!new), S, E>(attempts: seq<Resolution<A, S, E>>, last: Resolution<A, S, E>,
                                 single: Resolution<A, S, E>, original: map<A, S>, order: seq<A>)
    requires Covers(original, order) && NoRepeats(order)
    requires Resolve(single, original, order).failedAt.None?
    requires forall r :: r in attempts || r == last ==>
               Upholds(r, original, Resolve(single, original, order).state, order)
    requires Resolve(last, Attempts(attempts, original, order), order).failedAt.None?
    ensures Resolve(last, Attempts(attempts, original, order), order).state == Resolve(single, original, order).state
  {
    var state, answers := Attempts(attempts, original, order), Resolve(single, original, order).state;
    AttemptsBetween(attempts, original, answers, original, order);
    ResolveSucceeds(last, state, order);
    ResolveSucceeds(single, original, order);
    AttemptsOutside(attempts, original, order);
    var final := Resolve(last, state, order).state;
    forall a | a in original ensures final[a] == answers[a] {
      if a in order {
        assert Resolvable(last, state, a) && a in Elements(order);
        assert Upholds(last, original, answers, order);
        assert FailsOrGives(last(a, original[a]), answers[a]) && FailsOrGives(last(a, answers[a]), answers[a]);
      } else {
        assert a !in Elements(order);
      }
    }
  }

  /** A resolver that answers every slot, and every slot that already holds its answer, succeeds after any attempts. */
  lemma RetrySucceeds<A(!new), S, E>(attempts: seq<Resolution<A, S, E>>, single: Resolution<A, S, E>,
                                     original: map<A, S>, order: seq<A>)
    requires Covers(original, order) && NoRepeats(order)
    requires Resolve(single, original, order).failedAt.None?
    requires forall a :: a in order ==> a in original && single(a, Resolve(single, original, order).state[a]).Ok?
    requires forall r :: r in attempts ==> Upholds(r, original, Resolve(single, original, order).state, order)
    ensures Resolve(single, Attempts(attempts, original, order), order).failedAt.None?
  {
    var state, answers := Attempts(attempts, original, order), Resolve(single, original, order).state;
    AttemptsBetween(attempts, original, answers, original, order);
    ResolveSucceeds(single, original, order);
    ResolveSucceeds(single, state, order);
  }

  lemma {:induction false} AttemptsOutside<A(!new), S, E>(resolvers: seq<Resolution<A, S, E>>, state: map<A, S>,
                                                          order: seq<A>)
    requires Covers(state, order) && NoRepeats(order)
    ensures forall a :: a in state && a !in order ==> Attempts(resolvers, state, order)[a] == state[a]
    decreases |resolvers|
  {
    if resolvers != [] {
      var n := ResolveExact(resolvers[0], state, order);
      assert forall a :: a in Elements(order[..n]) ==> a in order;
      AttemptsOutside(resolvers[1..], Resolve(resolvers[0], state, order).state, order);
    }
  }

  // ---- resolvers that never change an answer: the exact outcome of attempts ----

  /** No resolver of the family changes an answer that any of them has given to the original contents. */
  ghost predicate Sticky<A(!new), S, E>(family: seq<Resolution<A, S, E>>, original: map<A, S>, order: seq<A>) {
    forall r, a | r in family && a in order && a in original && r(a, original[a]).Ok? ::
      Kept(family, a, r(a, original[a]).value)
  }

  ghost predicate Kept<A, S, E>(family: seq<Resolution<A, S, E>>, a: A, answer: S) {
    forall r | r in family :: r(a, answer) == Result<S, E>.Ok(answer)
  }

  /** How far a resolver gets when the slots before `from` hold answers and the others their original contents. */
  function Reach<A, S, E>(resolve: Resolution<A, S, E>, original: map<A, S>, order: seq<A>, from: nat): (n: nat)
    requires Covers(original, order) && from <= |order|
    ensures from <= n <= |order|
    decreases |order| - from
  {
    if from < |order| && resolve(order[from], original[order[from]]).Ok?
        then Reach(resolve, original, order, from + 1) else from
  }

  /** The first attempt that reaches a slot gives the answer that `last` would have given. */
  ghost predicate FirstAnswersLast<A, S, E>(attempts: seq<Resolution<A, S, E>>, last: Resolution<A, S, E>,
                                            original: map<A, S>, order: seq<A>, from: nat)
    requires Covers(original, order) && from <= |order|
    decreases |attempts|
  {
    attempts != [] ==>
      var n := Reach(attempts[0], original, order, from);
      && (forall j | from <= j < n :: attempts[0](order[j], original[order[j]]) == last(order[j], original[order[j]]))
      && FirstAnswersLast(attempts[1..], last, original, order, n)
  }

  /** The state between two attempts: answers that stay up to `from`, and the original contents from there on. */
  ghost predicate Partly<A, S, E>(family: seq<Resolution<A, S, E>>, original: map<A, S>, state: map<A, S>,
                                  order: seq<A>, from: nat) {
    && from <= |order| && state.Keys == original.Keys && Covers(original, order)
    && (forall j :: 0 <= j < from ==> Kept(family, order[j], state[order[j]]))
    && (forall a :: a in original && a !in order[..from] ==> state[a] == original[a])
  }

  lemma {:induction false} ReachIs<A(!new), S, E>(resolve: Resolution<A, S, E>, original: map<A, S>, order: seq<A>,
                                                  from: nat)
    requires Covers(original, order) && from <= |order|
    ensures var n := Reach(resolve, original, order, from);
            && (forall j :: from <= j < n ==> resolve(order[j], original[order[j]]).Ok?)
            && (n < |order| ==> resolve(order[n], original[order[n]]).Err?)
    decreases |order| - from
  {
    if from < |order| && resolve(order[from], original[order[from]]).Ok? {
      ReachIs(resolve, original, order, from + 1);
    }
  }

  /** One attempt: the answers up to `from` stay and those up to its reach are added. */
  lemma AttemptPartly<A(!new), S, E>(family: seq<Resolution<A, S, E>>, r: Resolution<A, S, E>,
                                     original: map<A, S>, state: map<A, S>, order: seq<A>, from: nat)
    requires Sticky(family, original, order) && Partly(family, original, state, order, from)
    requires NoRepeats(order) && r in family
    ensures var n, next := Reach(r, original, order, from), Resolve(r, state, order).state;
            && Partly(family, original, next, order, n)
            && (forall j :: 0 <= j < from ==> next[order[j]] == state[order[j]])
            && (forall j :: from <= j < n ==> r(order[j], original[order[j]]) == Result<S, E>.Ok(next[order[j]]))
            && (n == |order| <==> Resolve(r, state, order).failedAt.None?)
  {
    ReachIs(r, original, order, from);
    var n := Reach(r, original, order, from);
    var m := ResolveExact(r, state, order);
    forall j | 0 <= j < |order| ensures state[order[j]] == original[order[j]] || j < from {
      assert order[j] in order[..from] ==> exists i :: 0 <= i < from && order[i] == order[j];
    }
    assert forall j :: 0 <= j < from ==> Resolvable(r, state, order[j]);
    assert n == m;
    forall j | 0 <= j < |order| ensures order[j] in Elements(order[..m]) <==> j < m {
      assert order[j] in order[..m] ==> exists i :: 0 <= i < m && order[i] == order[j];
      assert j < m ==> order[..m][j] == order[j];
    }
  }

  /**
   The exact outcome: after any attempts with resolvers that never change an answer, a resolver that answers every
   slot succeeds, and it leaves the state of a single run if and only if each slot was first reached by an attempt
   with the same answer, or by none.
   */
  lemma ConvergesExactly<A(!new), S, E>(attempts: seq<Resolution<A, S, E>>, last: Resolution<A, S, E>,
                                        original: map<A, S>, order: seq<A>)
    requires Covers(original, order) && NoRepeats(order) && Sticky(attempts + [last], original, order)
    requires Resolve(last, original, order).failedAt.None?
    ensures var after := Resolve(last, Attempts(attempts, original, order), order);
            && after.failedAt.None?
            && (after.state == Resolve(last, original, order).state
                <==> FirstAnswersLast(attempts, last, original, order, 0))
  {
    ResolveSucceeds(last, original, order);
    EachSlot(last, original, order);
    RunPartly(attempts + [last], attempts, last, original, original, order, 0);
    var after, answers := Resolve(last, Attempts(attempts, original, order), order).state,
        Resolve(last, original, order).state;
    if forall j :: 0 <= j < |order| ==> after[order[j]] == answers[order[j]] {
      forall a | a in original ensures after[a] == answers[a] {
        if a in order {
          var j :| 0 <= j < |order| && order[j] == a;
        }
      }
    }
  }

  /** What is left to do after some attempts, by the number of slots that hold answers. */
  lemma {:induction false} RunPartly<A(!new), S, E>(family: seq<Resolution<A, S, E>>,
                                                    attempts: seq<Resolution<A, S, E>>, last: Resolution<A, S, E>,
                                                    original: map<A, S>, state: map<A, S>, order: seq<A>, from: nat)
    requires NoRepeats(order) && Sticky(family, original, order) && Partly(family, original, state, order, from)
    requires last in family && (forall r :: r in attempts ==> r in family)
    requires forall a :: a in order ==> Resolvable(last, original, a)
    ensures var after := Resolve(last, Attempts(attempts, state, order), order);
            && after.failedAt.None? && after.state.Keys == original.Keys
            && (forall j :: 0 <= j < from ==> after.state[order[j]] == state[order[j]])
            && (forall a :: a in original && a !in order ==> after.state[a] == original[a])
            && ((forall j :: from <= j < |order| ==>
                   last(order[j], original[order[j]]) == Result<S, E>.Ok(after.state[order[j]]))
                <==> FirstAnswersLast(attempts, last, original, order, from))
    decreases |attempts|
  {
    if attempts == [] {
      AttemptPartly(family, last, original, state, order, from);
      ReachIs(last, original, order, from);
      assert forall j :: 0 <= j < |order| ==> order[j] in order && Resolvable(last, original, order[j]);
    } else {
      var n := Reach(attempts[0], original, order, from);
      var next := Resolve(attempts[0], state, order).state;
      AttemptPartly(family, attempts[0], original, state, order, from);
      RunPartly(family, attempts[1..], last, original, next, order, n);
    }
  }
}
