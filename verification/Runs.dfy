/**
 Runs of a transition system. A system is given by the function from a state
 and a step to the state after it, if the step is enabled.
 */
module Runs {
  import opened Options

  /** Taking the given steps leads from s to t. */
  ghost predicate Leads<S, A>(next: (S, A) -> Option<S>, s: S, steps: seq<A>, t: S)
    decreases |steps|
  {
    if steps == [] then s == t
    else next(s, steps[0]).Some? && Leads(next, next(s, steps[0]).value, steps[1..], t)
  }

  lemma Stays<S, A>(next: (S, A) -> Option<S>, s: S)
    ensures Leads(next, s, [], s)
  {
  }

  lemma {:induction false} LeadsOn<S, A>(next: (S, A) -> Option<S>, s: S, a: seq<A>, t: S, b: seq<A>, u: S)
    requires Leads(next, s, a, t) && Leads(next, t, b, u)
    ensures Leads(next, s, a + b, u)
    decreases |a|
  {
    if a == [] {
      assert a + b == b;
    } else {
      LeadsOn(next, next(s, a[0]).value, a[1..], t, b, u);
      assert (a + b)[1..] == a[1..] + b;
    }
  }

  /** One step before the others. */
  lemma LeadsOne<S, A>(next: (S, A) -> Option<S>, s: S, step: A, steps: seq<A>, t: S)
    requires next(s, step).Some? && Leads(next, next(s, step).value, steps, t)
    ensures Leads(next, s, [step] + steps, t)
  {
    assert ([step] + steps)[1..] == steps;
  }

  /** One step after the others. */
  lemma Take<S, A>(next: (S, A) -> Option<S>, s: S, a: seq<A>, t: S, step: A) returns (b: seq<A>, u: S)
    requires Leads(next, s, a, t) && next(t, step).Some?
    ensures b == a + [step] && u == next(t, step).value && Leads(next, s, b, u)
  {
    b, u := a + [step], next(t, step).value;
    Stays(next, u);
    LeadsOne(next, t, step, [], u);
    assert [step] + [] == [step];
    LeadsOn(next, s, a, t, [step], u);
  }

  /** The state before the last step. */
  lemma {:induction false} BeforeLast<S, A>(next: (S, A) -> Option<S>, s: S, steps: seq<A>, t: S) returns (mid: S)
    requires steps != [] && Leads(next, s, steps, t)
    ensures Leads(next, s, steps[..|steps| - 1], mid)
    ensures next(mid, steps[|steps| - 1]) == Some(t)
    decreases |steps|
  {
    if |steps| == 1 {
      mid := s;
      assert steps[1..] == [] && steps[..0] == [];
    } else {
      mid := BeforeLast(next, next(s, steps[0]).value, steps[1..], t);
      assert steps[..|steps| - 1][1..] == steps[1..][..|steps| - 2];
    }
  }

  /** What every step keeps holds after every run. */
  lemma {:induction false} Invariant<S(!new), A(!new)>(next: (S, A) -> Option<S>, inv: S -> bool,
                                                       s: S, steps: seq<A>, t: S)
    requires inv(s) && Leads(next, s, steps, t)
    requires forall x, a :: inv(x) && next(x, a).Some? ==> inv(next(x, a).value)
    ensures inv(t)
    decreases |steps|
  {
    if steps == [] {
    } else {
      Invariant(next, inv, next(s, steps[0]).value, steps[1..], t);
    }
  }

  /** A run of a system that allows fewer steps is a run of the other. */
  lemma {:induction false} Fewer<S(!new), A(!new)>(few: (S, A) -> Option<S>, next: (S, A) -> Option<S>,
                                                   s: S, steps: seq<A>, t: S)
    requires Leads(few, s, steps, t)
    requires forall x, a :: few(x, a).Some? ==> next(x, a) == few(x, a)
    ensures Leads(next, s, steps, t)
    decreases |steps|
  {
    if steps == [] {
    } else {
      Fewer(few, next, few(s, steps[0]).value, steps[1..], t);
    }
  }

  lemma InSnoc<A>(steps: seq<A>, x: A)
    requires steps != []
    ensures x in steps <==> x in steps[..|steps| - 1] || x == steps[|steps| - 1]
  {
    assert steps == steps[..|steps| - 1] + [steps[|steps| - 1]];
  }
}
