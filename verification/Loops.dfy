/** A loop over a sequence that either goes on with a new state or finishes with a result: the
    common form of the gateway's loop over keys and its loop over pools. */
module Loops {
  datatype Step<S, R> = Finish(result: R, state: S) | GoOn(state: S)

  /** The loop from item `i` on; `None` as result means that it ran past the last item. */
  function Loop<A, S, R>(turn: (A, nat, S) -> Step<S, R>, items: seq<A>, i: nat, st: S): (Step<S, R>, nat)
    requires i <= |items|
    decreases |items| - i
  {
    if i == |items| then (GoOn(st), i)
    else
      match turn(items[i], i, st)
      case Finish(r, st') => (Finish(r, st'), i)
      case GoOn(st') => Loop(turn, items, i + 1, st')
  }

  /** One iteration. */
  lemma LoopStep<A, S, R>(turn: (A, nat, S) -> Step<S, R>, items: seq<A>, i: nat, st: S, step: Step<S, R>)
    requires i < |items| && turn(items[i], i, st) == step
    ensures Loop(turn, items, i, st) == match step
                                        case Finish(_, _) => (step, i)
                                        case GoOn(st') => Loop(turn, items, i + 1, st')
  {
  }

  /** The state before item `i`, had no item before it finished the loop. */
  function StateBefore<A, S, R>(turn: (A, nat, S) -> Step<S, R>, items: seq<A>, i: nat, st: S): S
    requires i <= |items|
  {
    if i == 0 then st else turn(items[i - 1], i - 1, StateBefore(turn, items, i - 1, st)).state
  }

  /** Item `i` is the one that finishes the loop, if the loop gets there. */
  predicate Finishes<A, S, R>(turn: (A, nat, S) -> Step<S, R>, items: seq<A>, i: nat, st: S)
    requires i < |items|
  {
    turn(items[i], i, StateBefore(turn, items, i, st)).Finish?
  }

  lemma {:induction false} LoopEnds<A, S, R>(turn: (A, nat, S) -> Step<S, R>, items: seq<A>, i: nat, st: S)
    requires i <= |items| && forall k :: 0 <= k < i ==> !Finishes(turn, items, k, st)
    ensures var (step, e) := Loop(turn, items, i, StateBefore(turn, items, i, st));
            && i <= e <= |items|
            && (forall k :: 0 <= k < e ==> !Finishes(turn, items, k, st))
            && if e == |items| then step == GoOn(StateBefore(turn, items, e, st))
               else step.Finish? && step == turn(items[e], e, StateBefore(turn, items, e, st))
    decreases |items| - i
  {
    if i == |items| || Finishes(turn, items, i, st) {
    } else {
      LoopEnds(turn, items, i + 1, st);
    }
  }

  /** The loop ends at the first item that finishes it, and otherwise in the state after all. */
  lemma LoopMeaning<A, S, R>(turn: (A, nat, S) -> Step<S, R>, items: seq<A>, st: S)
    ensures var (step, e) := Loop(turn, items, 0, st);
            && e <= |items|
            && (forall k :: 0 <= k < e ==> !Finishes(turn, items, k, st))
            && if e == |items| then step == GoOn(StateBefore(turn, items, e, st))
               else step.Finish? && step == turn(items[e], e, StateBefore(turn, items, e, st))
  {
    LoopEnds(turn, items, 0, st);
  }

  // ----- A loop over a set -----

  /** `done` and `todo` make up `all`. */
  ghost predicate Halves<A>(done: set<A>, todo: set<A>, all: set<A>) {
    done !! todo && done + todo == all
  }

  /** One element after another. */
  lemma MoveOne<A>(done: set<A>, todo: set<A>, all: set<A>, a: A)
    requires Halves(done, todo, all) && a in todo
    ensures Halves(done + {a}, todo - {a}, all) && |todo - {a}| < |todo|
  {
  }

  // ----- Repeating one step -----

  function Iterate<S>(f: S -> S, n: nat, s: S): S {
    if n == 0 then s else Iterate(f, n - 1, f(s))
  }

  lemma {:induction false} IterateSplits<S>(f: S -> S, a: nat, b: nat, s: S)
    ensures Iterate(f, b, Iterate(f, a, s)) == Iterate(f, a + b, s)
  {
    if a == 0 {
    } else {
      IterateSplits(f, a - 1, b, f(s));
    }
  }

  lemma {:induction false} IterateStays<S>(f: S -> S, n: nat, s: S)
    requires f(s) == s
    ensures Iterate(f, n, s) == s
  {
    if n == 0 {
    } else {
      IterateStays(f, n - 1, s);
    }
  }

  lemma IterateLast<S>(f: S -> S, n: nat, s: S)
    requires n > 0
    ensures Iterate(f, n, s) == f(Iterate(f, n - 1, s))
  {
    IterateSplits(f, n - 1, 1, s);
  }

  /** A change that commutes with every step taken commutes with all of them together. */
  lemma {:induction false} IterateCommutes<S>(f: S -> S, g: S -> S, n: nat, s: S)
    requires forall k: nat :: k < n ==> f(g(Iterate(f, k, s))) == g(f(Iterate(f, k, s)))
    ensures Iterate(f, n, g(s)) == g(Iterate(f, n, s))
  {
    if n == 0 {
    } else {
      IterateCommutes(f, g, n - 1, s);
      IterateLast(f, n, s);
      IterateLast(f, n, g(s));
    }
  }

  /** What holds at the start and is kept by every step holds after `n` steps. */
  lemma {:induction false} KeptThrough(holds: nat -> bool, n: nat)
    requires holds(0) && forall k: nat :: k < n && holds(k) ==> holds(k + 1)
    ensures holds(n)
  {
    if n > 0 {
      KeptThrough(holds, n - 1);
      assert holds(n - 1) ==> holds(n - 1 + 1);
    }
  }

  /** What starts out false, and becomes true for good when `turn` comes, is true iff that has come. */
  lemma {:induction false} TrueOnceTurned(holds: nat -> bool, turn: nat -> bool, n: nat)
    requires !holds(0) && forall k: nat :: k < n ==> (holds(k + 1) <==> holds(k) || turn(k))
    ensures holds(n) <==> exists k: nat :: k < n && turn(k)
  {
    if n > 0 {
      TrueOnceTurned(holds, turn, n - 1);
      assert holds(n - 1 + 1) <==> holds(n - 1) || turn(n - 1);
    }
  }

  // ----- A run of operations -----

  /** The state after all of `ops`, first to last. */
  function Fold<S, A>(f: (S, A) -> S, s: S, ops: seq<A>): S {
    if ops == [] then s else f(Fold(f, s, ops[..|ops| - 1]), ops[|ops| - 1])
  }

  /** What holds at the start and is kept by every operation holds at the end. */
  lemma {:induction false} FoldKeeps<S(!new), A>(f: (S, A) -> S, s: S, ops: seq<A>, holds: (nat, S) -> bool)
    requires holds(0, s)
    requires forall k: nat, st: S :: k < |ops| && holds(k, st) ==> holds(k + 1, f(st, ops[k]))
    ensures holds(|ops|, Fold(f, s, ops))
  {
    if ops == [] {
    } else {
      var front := ops[..|ops| - 1];
      forall k: nat, st: S | k < |front| && holds(k, st) ensures holds(k + 1, f(st, front[k])) {
        assert front[k] == ops[k];
      }
      FoldKeeps(f, s, front, holds);
    }
  }
}
