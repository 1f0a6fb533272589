/** Reconciling again and again: the convergence of module Slots for the resolvers of module References. */
module RepeatedResolution {
  import opened Slots
  import opened References

  /** How a managed resource whose slots point to the kinds `target` resolves each of them. */
  function StepOf<A>(resolver: Resolver, namespace: string, target: A -> Kind): Resolution<A, SlotValue, Error> {
    (a: A, v: SlotValue) => ResolveSlot(resolver, target(a), namespace, v)
  }

  function StepsOf<A>(resolvers: seq<Resolver>, namespace: string,
                      target: A -> Kind): seq<Resolution<A, SlotValue, Error>>
  {
    seq(|resolvers|, i requires 0 <= i < |resolvers| => StepOf(resolvers[i], namespace, target))
  }

  /** The resolver stands by the answers of `single` for the slots of this object, as the object is. */
  ghost predicate StandsByAll<A(!new)>(r: Resolver, single: Resolver, namespace: string, target: A -> Kind,
                                       original: map<A, SlotValue>, order: seq<A>) {
    forall a | a in order && a in original :: StandsBy(r, single, target(a), namespace, original[a])
  }

  /**
   Convergence: after any number of attempts that may each fail anywhere, one success leaves the state that a
   single successful run from the original leaves.
   */
  lemma ReferencesConverge<A(!new)>(attempts: seq<Resolver>, last: Resolver, single: Resolver, namespace: string,
                                    target: A -> Kind, original: map<A, SlotValue>, order: seq<A>)
    requires Covers(original, order) && NoRepeats(order)
    requires forall r :: r in attempts + [last] ==> StandsByAll(r, single, namespace, target, original, order)
    requires Resolve(StepOf(single, namespace, target), original, order).failedAt.None?
    requires var before := Attempts(StepsOf(attempts, namespace, target), original, order);
             Resolve(StepOf(last, namespace, target), before, order).failedAt.None?
    ensures var before := Attempts(StepsOf(attempts, namespace, target), original, order);
            Resolve(StepOf(last, namespace, target), before, order).state
            == Resolve(StepOf(single, namespace, target), original, order).state
  {
    StepsUphold(attempts, single, namespace, target, original, order);
    StepUpholds(last, single, namespace, target, original, order);
    Converges(StepsOf(attempts, namespace, target), StepOf(last, namespace, target),
              StepOf(single, namespace, target), original, order);
  }

  lemma StepsUphold<A(!new)>(attempts: seq<Resolver>, single: Resolver, namespace: string, target: A -> Kind,
                             original: map<A, SlotValue>, order: seq<A>)
    requires Covers(original, order) && NoRepeats(order)
    requires forall r :: r in attempts ==> StandsByAll(r, single, namespace, target, original, order)
    requires Resolve(StepOf(single, namespace, target), original, order).failedAt.None?
    ensures forall step :: step in StepsOf(attempts, namespace, target)
              ==> Upholds(step, original, Resolve(StepOf(single, namespace, target), original, order).state, order)
  {
    var steps := StepsOf(attempts, namespace, target);
    forall i | 0 <= i < |steps|
      ensures Upholds(steps[i], original, Resolve(StepOf(single, namespace, target), original, order).state, order)
    {
      assert attempts[i] in attempts;
      StepUpholds(attempts[i], single, namespace, target, original, order);
    }
  }

  lemma StepUpholds<A(!new)>(r: Resolver, single: Resolver, namespace: string, target: A -> Kind,
                             original: map<A, SlotValue>, order: seq<A>)
    requires Covers(original, order) && NoRepeats(order) && StandsByAll(r, single, namespace, target, original, order)
    requires Resolve(StepOf(single, namespace, target), original, order).failedAt.None?
    ensures Upholds(StepOf(r, namespace, target), original,
                    Resolve(StepOf(single, namespace, target), original, order).state, order)
  {
    hide ResolveSlot, StandsBy;
    var step := StepOf(single, namespace, target);
    ResolveSucceeds(step, original, order);
    forall a | a in order
      ensures var answer := Resolve(step, original, order).state[a];
              && FailsOrGives(StepOf(r, namespace, target)(a, original[a]), answer)
              && FailsOrGives(StepOf(r, namespace, target)(a, answer), answer)
    {
      assert Resolvable(step, original, a) && a in Elements(order);
      SlotStandsBy(r, single, target(a), namespace, original[a]);
    }
  }
}
