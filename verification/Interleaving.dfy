/** Runs of a protocol, seen from one participant: its own steps among those of arbitrary others. */
module Interleaving {

  /** Running on from a state, first action first. */
  function Play<S, A>(exec: (S, A) -> S, s: S, actions: seq<A>): S
    decreases |actions|
  {
    if actions == [] then s else Play(exec, exec(s, actions[0]), actions[1..])
  }

  lemma {:induction false} PlaySplits<S, A>(exec: (S, A) -> S, s: S, first: seq<A>, rest: seq<A>)
    ensures Play(exec, s, first + rest) == Play(exec, Play(exec, s, first), rest)
    decreases |first|
  {
    if first == [] {
      assert first + rest == rest;
    } else {
      assert (first + rest)[1..] == first[1..] + rest;
      PlaySplits(exec, exec(s, first[0]), first[1..], rest);
    }
  }

  /** The system went from `was` to `now` through `trace`, in which every step is somebody else's or one of `own`. */
  ghost predicate Ran<S, A(!new)>(exec: (S, A) -> S, was: S, now: S, trace: seq<A>, foreign: A -> bool, own: set<A>) {
    now == Play(exec, was, trace) && forall a :: a in trace ==> foreign(a) || a in own
  }

  lemma RanOn<S, A(!new)>(exec: (S, A) -> S, was: S, mid: S, now: S, first: seq<A>, rest: seq<A>, foreign: A -> bool,
                          own: set<A>, more: set<A>)
    requires Ran(exec, was, mid, first, foreign, own) && Ran(exec, mid, now, rest, foreign, more)
    ensures Ran(exec, was, now, first + rest, foreign, own + more)
  {
    PlaySplits(exec, was, first, rest);
  }

  lemma RanStep<S, A(!new)>(exec: (S, A) -> S, was: S, mid: S, now: S, trace: seq<A>, a: A, foreign: A -> bool, own: set<A>)
    requires Ran(exec, was, mid, trace, foreign, own) && now == exec(mid, a)
    ensures Ran(exec, was, now, trace + [a], foreign, own + {a})
  {
    assert Play(exec, mid, [a]) == now;
    RanOn(exec, was, mid, now, trace, [a], foreign, own, {a});
  }
}
