/** Progress by fairness, for any transition system whose steps belong to actors. */
module Fairness {

  /** `ready` says that an actor owes a step and can take it; `acts` says that a step is one the actor owed. */
  datatype System<!S, !T, !A> = System(
    next: (S, T, S) -> bool,
    inv: S -> bool,
    ready: (S, A) -> bool,
    acts: (T, A) -> bool
  )

  ghost predicate StepAt<S, T, A>(sys: System<S, T, A>, run: nat -> S, steps: nat -> T, i: nat) {
    sys.inv(run(i)) && sys.next(run(i), steps(i), run(i + 1))
  }

  ghost predicate IsRun<S, T, A>(sys: System<S, T, A>, run: nat -> S, steps: nat -> T) {
    forall i: nat :: StepAt(sys, run, steps, i)
  }

  ghost predicate After<S>(run: nat -> S, p: S -> bool, n: nat) {
    exists m: nat :: n <= m && p(run(m))
  }

  ghost predicate AgainAndAgain<S>(run: nat -> S, p: S -> bool) {
    forall n: nat :: After(run, p, n)
  }

  ghost predicate ReadyAgainAndAgain<S, T, A>(sys: System<S, T, A>, run: nat -> S, a: A) {
    AgainAndAgain(run, s => sys.ready(s, a))
  }

  ghost predicate ActsAgainAndAgain<S, T, A>(sys: System<S, T, A>, steps: nat -> T, a: A) {
    AgainAndAgain(steps, t => sys.acts(t, a))
  }

  /** An actor that is ready again and again acts again and again. */
  ghost predicate Fair<S, T, A(!new)>(sys: System<S, T, A>, run: nat -> S, steps: nat -> T) {
    forall a: A :: ReadyAgainAndAgain(sys, run, a) ==> ActsAgainAndAgain(sys, steps, a)
  }

  /** Only a step of `a` can end `p`. */
  ghost predicate Stable<S(!new), T(!new), A>(sys: System<S, T, A>, p: S -> bool, a: A) {
    forall s, t, s' :: sys.inv(s) && p(s) && sys.next(s, t, s') && !sys.acts(t, a) ==> p(s')
  }

  ghost predicate ActsAfter<S, T, A>(sys: System<S, T, A>, steps: nat -> T, a: A, n: nat) {
    exists m: nat :: n <= m && sys.acts(steps(m), a)
  }

  lemma {:induction false} FirstAct<S(!new), T(!new), A>(
      sys: System<S, T, A>, run: nat -> S, steps: nat -> T, p: S -> bool, a: A, n: nat, m: nat)
    returns (k: nat)
    requires IsRun(sys, run, steps) && Stable(sys, p, a) && p(run(n))
    requires n <= m && sys.acts(steps(m), a)
    ensures n <= k <= m && p(run(k)) && sys.acts(steps(k), a)
    decreases m - n
  {
    if sys.acts(steps(n), a) {
      k := n;
    } else {
      assert StepAt(sys, run, steps, n);
      k := FirstAct(sys, run, steps, p, a, n + 1, m);
    }
  }

  lemma {:induction false} HoldsWhileIdle<S(!new), T(!new), A>(
      sys: System<S, T, A>, run: nat -> S, steps: nat -> T, p: S -> bool, a: A, n: nat, m: nat)
    requires IsRun(sys, run, steps) && Stable(sys, p, a) && p(run(n))
    requires n <= m && !ActsAfter(sys, steps, a, n)
    ensures p(run(m))
    decreases m - n
  {
    if n < m {
      HoldsWhileIdle(sys, run, steps, p, a, n, m - 1);
      assert StepAt(sys, run, steps, m - 1);
    }
  }

  lemma {:induction false} ReadyWhileIdle<S(!new), T(!new), A>(
      sys: System<S, T, A>, run: nat -> S, steps: nat -> T, p: S -> bool, helpful: S -> bool, a: A, n: nat)
    requires IsRun(sys, run, steps) && Stable(sys, p, a) && p(run(n))
    requires AgainAndAgain(run, helpful)
    requires forall s :: sys.inv(s) && p(s) && helpful(s) ==> sys.ready(s, a)
    requires !ActsAfter(sys, steps, a, n)
    ensures ReadyAgainAndAgain(sys, run, a)
  {
    var ready := s => sys.ready(s, a);
    forall j: nat ensures After(run, ready, j) {
      var from := if n <= j then j else n;
      assert After(run, helpful, from);
      var m: nat :| from <= m && helpful(run(m));
      HoldsWhileIdle(sys, run, steps, p, a, n, m);
      assert StepAt(sys, run, steps, m);
      assert sys.ready(run(m), a);
    }
  }

  /**
   Once `p` holds, and as long as only `a` can end it, `a` acts from a state where `p` holds, provided that
   `p` makes `a` ready whenever the condition `helpful` holds too, and that it does again and again.
   */
  lemma {:induction false} EventuallyActs<S(!new), T(!new), A(!new)>(
      sys: System<S, T, A>, run: nat -> S, steps: nat -> T, p: S -> bool, helpful: S -> bool, a: A, n: nat)
    returns (k: nat)
    requires IsRun(sys, run, steps) && Fair(sys, run, steps) && Stable(sys, p, a) && p(run(n))
    requires AgainAndAgain(run, helpful)
    requires forall s :: sys.inv(s) && p(s) && helpful(s) ==> sys.ready(s, a)
    ensures n <= k && p(run(k)) && sys.acts(steps(k), a) && StepAt(sys, run, steps, k)
  {
    if !ActsAfter(sys, steps, a, n) {
      ReadyWhileIdle(sys, run, steps, p, helpful, a, n);
    }
    assert ActsAfter(sys, steps, a, n) by {
      if ReadyAgainAndAgain(sys, run, a) {
        assert After(steps, t => sys.acts(t, a), n);
      }
    }
    var m: nat :| n <= m && sys.acts(steps(m), a);
    k := FirstAct(sys, run, steps, p, a, n, m);
    assert StepAt(sys, run, steps, k);
  }
}
