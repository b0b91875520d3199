/**
 parallel/parallel.go as a transition system: callers of Do, runners and the
 caller of Wait. A call of Do and the function passed to it share one
 identity. Do may not be called concurrently with Wait, so Wait is enabled
 only when every Do has returned, and Do only before Wait.
 */
module Run {
  import opened Options
  import opened Counting
  import opened Runs

  type Call = nat
  type Error = int

  /** Where a call of Do is: before its select, before taking the mutex, at its last send, or back. */
  datatype Doing = Trying | Locking | Sending | Done

  datatype Runner =
    | Receiving(errs: seq<Error>)
    | Executing(c: Call, errs: seq<Error>)
    | Reporting(errs: seq<Error>)
    | Gone

  datatype Waiting = NotCalled | Collecting(i: nat, errs: seq<Error>) | Returned(errs: seq<Error>)

  /** What a function returned; NilError is the source's nil. */
  datatype Outcome = NilError | Failed(error: Error)

  datatype State = State(
    calls: map<Call, Doing>,
    runners: seq<Runner>,
    running: nat,
    wait: Waiting,                       // the channel work is closed from the call of Wait on
    finished: seq<(Call, Outcome)>)      // functions that have returned, in order

  datatype Step =
    | CallDo(c: Call)
    | HandOver(c: Call, k: nat)          // a send on work meets runner k
    | NoReceiver(c: Call)                // the default arm of the select
    | AddRunner(c: Call)                 // the section under the mutex
    | Finish(k: nat, c: Call, outcome: Outcome)   // runner k's function c returns
    | CallWait
    | SeeClosed(k: nat)
    | Collect(k: nat)
    | ReturnFromWait

  function Init(): State {
    State(map[], [], 0, NotCalled, [])
  }

  predicate At(s: State, c: Call, pc: Doing) {
    c in s.calls && s.calls[c] == pc
  }

  predicate Enabled(s: State, step: Step) {
    match step
    case CallDo(c) => c !in s.calls && s.wait == NotCalled
    case HandOver(c, k) => (At(s, c, Trying) || At(s, c, Sending)) && k < |s.runners| && s.runners[k].Receiving?
    case NoReceiver(c) => At(s, c, Trying)
    case AddRunner(c) => At(s, c, Locking)
    case Finish(k, c, _) => k < |s.runners| && s.runners[k].Executing? && s.runners[k].c == c
    case CallWait => s.wait == NotCalled && forall c :: c in s.calls ==> s.calls[c] == Done
    case SeeClosed(k) => k < |s.runners| && s.runners[k].Receiving? && s.wait != NotCalled
    case Collect(k) => k < |s.runners| && s.runners[k].Reporting? && s.wait.Collecting? && s.wait.i < s.running
    case ReturnFromWait => s.wait.Collecting? && s.wait.i >= s.running
  }

  function Apply(max: nat, s: State, step: Step): State
    requires Enabled(s, step)
  {
    match step
    case CallDo(c) => s.(calls := s.calls[c := Trying])
    case HandOver(c, k) =>
      s.(calls := s.calls[c := Done], runners := s.runners[k := Executing(c, s.runners[k].errs)])
    case NoReceiver(c) => s.(calls := s.calls[c := Locking])
    case AddRunner(c) =>
      var t := s.(calls := s.calls[c := Sending]);
      if s.running < max then t.(running := s.running + 1, runners := s.runners + [Receiving([])]) else t
    case Finish(k, c, r) =>
      var errs := s.runners[k].errs + if r.Failed? then [r.error] else [];
      s.(runners := s.runners[k := Receiving(errs)], finished := s.finished + [(c, r)])
    case CallWait => s.(wait := Collecting(0, []))
    case SeeClosed(k) => s.(runners := s.runners[k := Reporting(s.runners[k].errs)])
    case Collect(k) =>
      s.(runners := s.runners[k := Gone], wait := Collecting(s.wait.i + 1, s.wait.errs + s.runners[k].errs))
    case ReturnFromWait => s.(wait := Returned(s.wait.errs))
  }

  /** The transition system. */
  function Succ(max: nat): (State, Step) -> Option<State> {
    (s, step) => if Enabled(s, step) then Some(Apply(max, s, step)) else None
  }

  // ----- what is where

  predicate Executes(r: Runner) {
    r.Executing?
  }

  predicate IsGone(r: Runner) {
    r.Gone?
  }

  /** The function a runner is executing. */
  function Running(r: Runner): multiset<Call> {
    if r.Executing? then multiset{r.c} else multiset{}
  }

  /** The errors a runner has yet to report. */
  function Held(r: Runner): multiset<Error> {
    if r.Gone? then multiset{} else multiset(r.errs)
  }

  function Completed(r: (Call, Outcome)): multiset<Call> {
    multiset{r.0}
  }

  /** The error a function returned, if any. */
  function Raised(r: (Call, Outcome)): multiset<Error> {
    if r.1.Failed? then multiset{r.1.error} else multiset{}
  }

  /** The errors Wait has collected. */
  function Collected(w: Waiting): multiset<Error> {
    if w.NotCalled? then multiset{} else multiset(w.errs)
  }

  // ----- the invariant, part by part

  ghost predicate ShapeInv(max: nat, s: State) {
    && s.running == |s.runners| <= max
    && (s.wait == NotCalled ==> forall k :: 0 <= k < |s.runners| ==> s.runners[k].Receiving? || s.runners[k].Executing?)
    && (s.wait != NotCalled ==> forall c :: c in s.calls ==> s.calls[c] == Done)
    && ((exists c :: c in s.calls && s.calls[c] == Sending) ==> s.running > 0)
  }

  /** Runners gone are the reports collected. */
  ghost predicate WaitInv(s: State) {
    match s.wait
    case NotCalled => Count(s.runners, IsGone) == 0
    case Collecting(i, _) => Count(s.runners, IsGone) == i
    case Returned(_) => Count(s.runners, IsGone) == |s.runners|
  }

  /** Function c is with a runner or has finished exactly if its Do is done. */
  ghost predicate OnceInv(s: State, c: Call) {
    Sum(s.runners, Running)[c] + Sum(s.finished, Completed)[c] == Bit(At(s, c, Done))
  }

  /** Errors raised are held by a runner or have been collected. */
  ghost predicate ErrorInv(s: State, e: Error) {
    Sum(s.runners, Held)[e] + Collected(s.wait)[e] == Sum(s.finished, Raised)[e]
  }

  lemma ShapeStep(max: nat, s: State, step: Step)
    requires max >= 1 && ShapeInv(max, s) && Enabled(s, step)
    ensures ShapeInv(max, Apply(max, s, step))
  {
    var t := Apply(max, s, step);
    if exists c :: c in t.calls && t.calls[c] == Sending {
      var c :| c in t.calls && t.calls[c] == Sending;
      assert step == AddRunner(c) || (c in s.calls && s.calls[c] == Sending);
    }
  }

  lemma WaitStep(max: nat, s: State, step: Step)
    requires ShapeInv(max, s) && WaitInv(s) && Enabled(s, step)
    ensures WaitInv(Apply(max, s, step))
  {
    match step {
      case HandOver(c, k) => CountUpdate(s.runners, k, Executing(c, s.runners[k].errs), IsGone);
      case AddRunner(c) => CountSnoc(s.runners, Receiving([]), IsGone);
      case Finish(k, c, r) => CountUpdate(s.runners, k, Apply(max, s, step).runners[k], IsGone);
      case SeeClosed(k) => CountUpdate(s.runners, k, Reporting(s.runners[k].errs), IsGone);
      case Collect(k) => CountUpdate(s.runners, k, Gone, IsGone);
      case _ =>
    }
  }

  /** How a step changes what the runners hold of u. */
  function Delta<U(!new)>(max: nat, s: State, step: Step, f: Runner -> multiset<U>, u: U): int
    requires Enabled(s, step)
  {
    match step
    case HandOver(c, k) => f(Executing(c, s.runners[k].errs))[u] as int - f(s.runners[k])[u]
    case AddRunner(_) => if s.running < max then f(Receiving([]))[u] else 0
    case Finish(k, _, _) => f(Apply(max, s, step).runners[k])[u] as int - f(s.runners[k])[u]
    case SeeClosed(k) => f(Reporting(s.runners[k].errs))[u] as int - f(s.runners[k])[u]
    case Collect(k) => f(Gone)[u] as int - f(s.runners[k])[u]
    case _ => 0
  }

  lemma RunnersStep<U(!new)>(max: nat, s: State, step: Step, f: Runner -> multiset<U>, u: U)
    requires Enabled(s, step)
    ensures Sum(Apply(max, s, step).runners, f)[u] == Sum(s.runners, f)[u] + Delta(max, s, step, f, u)
  {
    hide Sum;
    match step {
      case HandOver(c, k) => SumUpdate(s.runners, k, Executing(c, s.runners[k].errs), f, u);
      case AddRunner(c) => SumSnoc(s.runners, Receiving([]), f);
      case Finish(k, c, r) => SumUpdate(s.runners, k, Apply(max, s, step).runners[k], f, u);
      case SeeClosed(k) => SumUpdate(s.runners, k, Reporting(s.runners[k].errs), f, u);
      case Collect(k) => SumUpdate(s.runners, k, Gone, f, u);
      case _ =>
    }
  }

  lemma OnceStep(max: nat, s: State, step: Step, c: Call)
    requires OnceInv(s, c) && Enabled(s, step)
    ensures OnceInv(Apply(max, s, step), c)
  {
    hide Sum;
    RunnersStep(max, s, step, Running, c);
    if step.Finish? {
      SumSnoc(s.finished, (step.c, step.outcome), Completed);
    }
  }

  lemma ErrorStep(max: nat, s: State, step: Step, e: Error)
    requires ErrorInv(s, e) && Enabled(s, step)
    ensures ErrorInv(Apply(max, s, step), e)
  {
    hide Sum;
    RunnersStep(max, s, step, Held, e);
    if step.Finish? {
      SumSnoc(s.finished, (step.c, step.outcome), Raised);
    }
  }

  // ----- every reachable state

  ghost predicate Inv(max: nat, s: State) {
    ShapeInv(max, s) && WaitInv(s) && (forall e :: ErrorInv(s, e)) && (forall c :: OnceInv(s, c))
  }

  lemma StepInv(max: nat, s: State, step: Step)
    requires max >= 1 && Inv(max, s) && Enabled(s, step)
    ensures Inv(max, Apply(max, s, step))
  {
    hide Enabled, Apply, ShapeInv, WaitInv, ErrorInv, OnceInv;
    ShapeStep(max, s, step);
    WaitStep(max, s, step);
    forall e {
      ErrorStep(max, s, step, e);
    }
    forall c {
      OnceStep(max, s, step, c);
    }
  }

  lemma InitInv(max: nat)
    ensures Inv(max, Init())
  {
  }

  lemma Reached(max: nat, steps: seq<Step>, s: State)
    requires max >= 1 && Leads(Succ(max), Init(), steps, s)
    ensures Inv(max, s)
  {
    var inv := (x: State) => Inv(max, x);
    forall x, a | inv(x) && Succ(max)(x, a).Some?
      ensures inv(Succ(max)(x, a).value)
    {
      StepInv(max, x, a);
    }
    InitInv(max);
    hide Inv;
    Invariant(Succ(max), inv, Init(), steps, s);
  }

  // ----- what the steps of a run say

  /** The functions that returned in a run, with what they returned, in order. */
  function Finished(steps: seq<Step>): seq<(Call, Outcome)> {
    if steps == [] then []
    else
      var last := steps[|steps| - 1];
      Finished(steps[..|steps| - 1]) + if last.Finish? then [(last.c, last.outcome)] else []
  }

  /** How often c was handed to a runner. */
  function Handed(steps: seq<Step>, c: Call): nat {
    Count(steps, (step: Step) => step.HandOver? && step.c == c)
  }

  lemma RecordStep(max: nat, s: State, step: Step, c: Call)
    requires Enabled(s, step)
    ensures var t := Apply(max, s, step);
            && t.finished == s.finished + (if step.Finish? then [(step.c, step.outcome)] else [])
            && (c in t.calls <==> c in s.calls || step == CallDo(c))
            && Bit(At(t, c, Done)) == Bit(At(s, c, Done)) + Bit(step.HandOver? && step.c == c)
  {
  }

  lemma {:induction false} StateIsSteps(max: nat, steps: seq<Step>, s: State, c: Call)
    requires Leads(Succ(max), Init(), steps, s)
    ensures s.finished == Finished(steps)
    ensures c in s.calls <==> CallDo(c) in steps
    ensures Handed(steps, c) == Bit(At(s, c, Done))
    decreases |steps|
  {
    hide Enabled, Apply;
    if steps == [] {
    } else {
      var mid := BeforeLast(Succ(max), Init(), steps, s);
      StateIsSteps(max, steps[..|steps| - 1], mid, c);
      RecordStep(max, mid, steps[|steps| - 1], c);
      InSnoc(steps, CallDo(c));
    }
  }

  /** The number of functions executing never exceeds running, nor that the maximum. */
  lemma AtMostMax(max: nat, steps: seq<Step>, s: State)
    requires max >= 1 && Leads(Succ(max), Init(), steps, s)
    ensures Count(s.runners, Executes) <= s.running <= max
  {
    Reached(max, steps, s);
  }

  /**
   Every function handed to a runner, which happens at most once and exactly if
   its Do has returned, is executing or has finished exactly once.
   */
  lemma RunOnce(max: nat, steps: seq<Step>, s: State, c: Call)
    requires max >= 1 && Leads(Succ(max), Init(), steps, s)
    ensures Sum(s.runners, Running)[c] + Sum(Finished(steps), Completed)[c] == Handed(steps, c) == Bit(At(s, c, Done))
  {
    Reached(max, steps, s);
    StateIsSteps(max, steps, s, c);
    assert OnceInv(s, c);
  }

  /**
   When Wait returns, every function passed to Do has returned, exactly once,
   and the errors returned are exactly the errors the functions returned.
   */
  lemma WaitComplete(max: nat, steps: seq<Step>, s: State)
    requires max >= 1 && Leads(Succ(max), Init(), steps, s) && s.wait.Returned?
    ensures forall c :: Sum(Finished(steps), Completed)[c] == Bit(CallDo(c) in steps)
    ensures multiset(s.wait.errs) == Sum(Finished(steps), Raised)
    ensures s.wait.errs == [] <==> forall i :: 0 <= i < |steps| ==> !Fails(steps[i])
  {
    hide Sum, Count;
    Reached(max, steps, s);
    StateIsSteps(max, steps, s, 0);
    CountFull(s.runners, IsGone);
    SumEmpty(s.runners, Held);
    SumEmpty(s.runners, Running);
    forall c
      ensures Sum(Finished(steps), Completed)[c] == Bit(CallDo(c) in steps)
    {
      StateIsSteps(max, steps, s, c);
      assert OnceInv(s, c);
    }
    forall e
      ensures multiset(s.wait.errs)[e] == Sum(Finished(steps), Raised)[e]
    {
      assert ErrorInv(s, e);
    }
    NoErrors(steps);
    assert s.wait.errs == [] <==> multiset(s.wait.errs) == multiset{} by {
      if s.wait.errs != [] {
        assert s.wait.errs[0] in multiset(s.wait.errs);
      }
    }
  }

  /** A function returns an error. */
  predicate Fails(step: Step) {
    step.Finish? && step.outcome.Failed?
  }

  lemma {:induction false} NoErrors(steps: seq<Step>)
    ensures Sum(Finished(steps), Raised) == multiset{} <==> forall i :: 0 <= i < |steps| ==> !Fails(steps[i])
    decreases |steps|
  {
    hide Sum;
    if steps == [] {
      SumEmpty(Finished(steps), Raised);
    } else {
      var before, last := steps[..|steps| - 1], steps[|steps| - 1];
      NoErrors(before);
      assert forall i :: 0 <= i < |before| ==> before[i] == steps[i];
      if last.Finish? {
        SumSnoc(Finished(before), (last.c, last.outcome), Raised);
        if last.outcome.Failed? {
          assert last.outcome.error in Sum(Finished(steps), Raised);
          assert Fails(steps[|steps| - 1]);
        }
      } else {
        assert Finished(before) + [] == Finished(before);
      }
    }
  }

  /** A Do that finds a runner receiving hands its function over at once and adds no runner. */
  lemma ReceiverTakes(max: nat, s: State, c: Call, k: nat)
    requires At(s, c, Trying) && k < |s.runners| && s.runners[k].Receiving?
    ensures var t := Succ(max)(s, HandOver(c, k));
            t.Some? && At(t.value, c, Done) && t.value.running == s.running && t.value.runners[k].Executing?
  {
  }

  // ----- as many at once as allowed

  /** n runners, each executing a function. */
  ghost predicate Busy(s: State, n: nat) {
    && s.wait == NotCalled && s.running == |s.runners| == n
    && (forall k :: 0 <= k < n ==> s.runners[k].Executing?)
    && (forall c :: c in s.calls ==> c < n)
  }

  lemma OneMoreBusy(max: nat, s: State, n: nat) returns (steps: seq<Step>, t: State)
    requires Busy(s, n) && n < max
    ensures Leads(Succ(max), s, steps, t) && Busy(t, n + 1)
  {
    hide Leads;
    Stays(Succ(max), s);
    steps, t := Take(Succ(max), s, [], s, CallDo(n));
    steps, t := Take(Succ(max), s, steps, t, NoReceiver(n));
    steps, t := Take(Succ(max), s, steps, t, AddRunner(n));
    steps, t := Take(Succ(max), s, steps, t, HandOver(n, n));
  }

  /** Any number of functions up to the maximum can execute at once. */
  lemma {:induction false} MaxReached(max: nat, n: nat) returns (steps: seq<Step>, s: State)
    requires n <= max
    ensures Leads(Succ(max), Init(), steps, s) && Count(s.runners, Executes) == n && Busy(s, n)
    decreases n
  {
    if n == 0 {
      steps, s := [], Init();
      Stays(Succ(max), s);
    } else {
      var a, t := MaxReached(max, n - 1);
      var b;
      b, s := OneMoreBusy(max, t, n - 1);
      LeadsOn(Succ(max), Init(), a, t, b, s);
      steps := a + b;
      CountFull(s.runners, Executes);
    }
  }

  // ----- progress

  /** Nothing from outside but the return of running functions, with what out says. */
  predicate Inner(out: Call -> Outcome, step: Step) {
    match step
    case Finish(_, c, r) => r == out(c)
    case _ => step.SeeClosed? || step.Collect? || step.ReturnFromWait?
  }

  /** The transition system with inner steps only. */
  function Alone(max: nat, out: Call -> Outcome): (State, Step) -> Option<State> {
    (s, step) => if Enabled(s, step) && Inner(out, step) then Some(Apply(max, s, step)) else None
  }

  /**
   A Do blocked at its last send always has a runner that can take its
   function: one that is receiving, or one that will be when its function
   returns.
   */
  lemma BlockedDoCanReturn(max: nat, before: seq<Step>, s: State, c: Call, out: Call -> Outcome)
    returns (steps: seq<Step>, t: State)
    requires max >= 1 && Leads(Succ(max), Init(), before, s) && At(s, c, Sending)
    ensures Leads(Succ(max), s, steps, t) && At(t, c, Done)
    ensures 1 <= |steps| <= 2 && steps[|steps| - 1] == HandOver(c, 0)
    ensures |steps| == 2 ==> s.runners != [] && s.runners[0].Executing? && steps[0] == Finish(0, s.runners[0].c, out(s.runners[0].c))
  {
    Reached(max, before, s);
    assert s.runners != [];
    steps, t := [], s;
    if s.runners[0].Executing? {
      steps, t := Take(Succ(max), s, steps, t, Finish(0, s.runners[0].c, out(s.runners[0].c)));
    }
    steps, t := Take(Succ(max), s, steps, t, HandOver(c, 0));
  }

  function Distance(r: Runner): nat {
    match r
    case Executing(_, _) => 3
    case Receiving(_) => 2
    case Reporting(_) => 1
    case Gone => 0
  }

  /** The next step of a runner after Wait was called. */
  lemma RunnerStep(max: nat, s: State, k: nat, out: Call -> Outcome) returns (step: Step, t: State)
    requires max >= 1 && Inv(max, s) && s.wait.Collecting? && k < |s.runners| && !s.runners[k].Gone?
    ensures Enabled(s, step) && Inner(out, step) && t == Apply(max, s, step) && Inv(max, t)
    ensures t.wait.Collecting? && |t.runners| == |s.runners|
    ensures Distance(t.runners[k]) < Distance(s.runners[k])
    ensures forall j :: 0 <= j < |s.runners| && j != k ==> t.runners[j] == s.runners[j]
  {
    hide OnceInv, ErrorInv;
    step := match s.runners[k]
      case Executing(c, _) => Finish(k, c, out(c))
      case Receiving(_) => SeeClosed(k)
      case _ => Collect(k);
    CountFull(s.runners, IsGone);
    t := Apply(max, s, step);
    StepInv(max, s, step);
  }

  lemma DriveRunner(max: nat, s: State, k: nat, out: Call -> Outcome) returns (steps: seq<Step>, t: State)
    requires max >= 1 && Inv(max, s) && s.wait.Collecting? && k < |s.runners|
    ensures Leads(Alone(max, out), s, steps, t) && Inv(max, t) && t.wait.Collecting? && |t.runners| == |s.runners|
    ensures t.runners[k].Gone?
    ensures forall j :: 0 <= j < |s.runners| && j != k ==> t.runners[j] == s.runners[j]
    decreases Distance(s.runners[k])
  {
    hide Inv, Enabled, Inner, Apply;
    if s.runners[k].Gone? {
      steps, t := [], s;
    } else {
      var step, u := RunnerStep(max, s, k, out);
      steps, t := DriveRunner(max, u, k, out);
      LeadsOne(Alone(max, out), s, step, steps, t);
      steps := [step] + steps;
    }
  }

  lemma DriveFrom(max: nat, s: State, k: nat, out: Call -> Outcome) returns (steps: seq<Step>, t: State)
    requires max >= 1 && Inv(max, s) && s.wait.Collecting? && k <= |s.runners|
    requires forall j :: 0 <= j < k ==> s.runners[j].Gone?
    ensures Leads(Alone(max, out), s, steps, t) && Inv(max, t) && t.wait.Collecting?
    ensures forall j :: 0 <= j < |t.runners| ==> t.runners[j].Gone?
    decreases |s.runners| - k
  {
    hide Inv, Enabled, Inner, Apply;
    if k == |s.runners| {
      steps, t := [], s;
    } else {
      var first, u := DriveRunner(max, s, k, out);
      steps, t := DriveFrom(max, u, k + 1, out);
      LeadsOn(Alone(max, out), s, first, u, steps, t);
      steps := first + steps;
    }
  }

  lemma AllCollected(max: nat, s: State)
    requires Inv(max, s) && s.wait.Collecting? && forall k :: 0 <= k < |s.runners| ==> s.runners[k].Gone?
    ensures Enabled(s, ReturnFromWait)
  {
    CountFull(s.runners, IsGone);
  }

  lemma ReturnNow(max: nat, out: Call -> Outcome, s: State, a: seq<Step>, t: State) returns (b: seq<Step>, u: State)
    requires Leads(Alone(max, out), s, a, t) && Enabled(t, ReturnFromWait)
    ensures Leads(Alone(max, out), s, b, u) && u.wait.Returned?
  {
    hide Leads;
    b, u := Take(Alone(max, out), s, a, t, ReturnFromWait);
  }

  /** Wait never blocks for good: once called, it returns when the running functions do, whatever they return. */
  lemma WaitCanReturn(max: nat, before: seq<Step>, s: State, out: Call -> Outcome)
    returns (steps: seq<Step>, t: State)
    requires max >= 1 && Leads(Succ(max), Init(), before, s) && s.wait != NotCalled
    ensures Leads(Succ(max), s, steps, t) && Leads(Alone(max, out), s, steps, t) && t.wait.Returned?
  {
    hide Inv, Enabled, Apply;
    Reached(max, before, s);
    if s.wait.Returned? {
      steps, t := [], s;
    } else {
      steps, t := DriveFrom(max, s, 0, out);
      AllCollected(max, t);
      steps, t := ReturnNow(max, out, s, steps, t);
    }
    Fewer(Alone(max, out), Succ(max), s, steps, t);
  }
}
