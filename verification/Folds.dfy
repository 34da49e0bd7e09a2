/** Going through a sequence of events, from a first state. */
module Folds {
  function Fold<S, E>(step: (S, E) -> S, s: S, events: seq<E>): S {
    if events == [] then s else step(Fold(step, s, events[..|events| - 1]), events[|events| - 1])
  }

  lemma FoldNone<S, E>(step: (S, E) -> S, s: S)
    ensures Fold(step, s, []) == s
  {
  }

  lemma FoldOne<S, E>(step: (S, E) -> S, s: S, events: seq<E>, e: E)
    ensures Fold(step, s, events + [e]) == step(Fold(step, s, events), e)
  {
    assert (events + [e])[..|events|] == events;
  }

  /** Two stretches, one after the other. */
  lemma {:induction false} FoldConcat<S, E>(step: (S, E) -> S, s: S, a: seq<E>, b: seq<E>)
    ensures Fold(step, s, a + b) == Fold(step, Fold(step, s, a), b)
    decreases |b|
  {
    if b == [] {
      assert a + b == a;
    } else {
      var n := |b| - 1;
      FoldConcat(step, s, a, b[..n]);
      assert (a + b)[..|a + b| - 1] == a + b[..n];
    }
  }

  // ----- One actor's events among those of the others -----

  /** The first `n` events of an actor, each behind what the others do before it. */
  ghost function Interleaved<E>(others: nat -> seq<E>, own: nat -> E, n: nat): seq<E> {
    if n == 0 then [] else Interleaved(others, own, n - 1) + others(n - 1) + [own(n - 1)]
  }

  /** The state in which the actor comes to its event number `t`. */
  ghost function StateAt<S, E>(step: (S, E) -> S, s: S, others: nat -> seq<E>, own: nat -> E, t: nat): S {
    Fold(step, Fold(step, s, Interleaved(others, own, t)), others(t))
  }

  lemma OneTick<S, E>(step: (S, E) -> S, s: S, others: nat -> seq<E>, own: nat -> E, t: nat)
    ensures Fold(step, s, Interleaved(others, own, t + 1)) == step(StateAt(step, s, others, own, t), own(t))
  {
    hide Fold;
    var before := Interleaved(others, own, t);
    FoldConcat(step, s, before, others(t));
    FoldOne(step, s, before + others(t), own(t));
  }

  lemma NoTick<S, E>(step: (S, E) -> S, s: S, others: nat -> seq<E>, own: nat -> E)
    ensures Fold(step, s, Interleaved(others, own, 0)) == s
  {
  }
}
