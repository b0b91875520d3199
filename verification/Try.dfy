/**
 parallel/try.go as a transition system: the loop, the callers of Start, the
 functions they start, and the tomb. A call of Start and the function it
 starts share one identity, and a value returned with a nil error is named by
 the call whose function returned it.
 */
module Try {
  import opened Options
  import opened Counting
  import opened Runs

  datatype Error = ErrStopped | ErrClosed | Other(code: int)

  type Call = nat

  /** What a function returned: a value and a nil error, or an error. */
  datatype Outcome = Value | Failure(error: Error)

  datatype Pc =
    // the caller of Start
    | WantSlot
    | Offering
    | Refused(why: Error, tookSlot: bool)
    // the started function
    | Executing
    | ReturningSlot(r: Outcome)
    | Delivering(r: Outcome)
    | Received(r: Outcome)
    | Discarded(r: Outcome)

  datatype Exit = BySuccess | ByCompletion | ByDying

  datatype Loop =
    | Looping(err: Option<Error>, closeSeen: bool, nrunning: int)
    | Returned(val: Option<Call>, res: Option<Error>, exit: Exit, stage: Stage)

  /** How far the goroutine that runs the loop has come after the loop returned. */
  datatype Stage = ResultReady | ResultStored | TombKilled | TombDone

  datatype Config = Config(maxParallel: int, combine: (Option<Error>, Error) -> Option<Error>)

  datatype State = State(
    calls: map<Call, Pc>,
    loop: Loop,
    free: nat,                        // tokens in the limiter channel
    closed: bool,
    dying: bool,
    reason: Option<Error>,            // the tomb's reason; None is nil
    endResult: Option<Call>,
    received: seq<(Call, Outcome)>,   // results the loop has taken, in order
    closes: seq<Call>)                // values closed, in order

  datatype Step =
    | CallStart(c: Call)
    | TakeSlot(c: Call)
    | StopWaiting(c: Call)            // refused at the first select, Try dying
    | CloseWaiting(c: Call)           // refused at the first select, Try closed
    | Accept(c: Call)
    | StopOffer(c: Call)              // refused at the second select, Try dying
    | CloseOffer(c: Call)             // refused at the second select, Try closed
    | Return(c: Call, outcome: Outcome)
    | GiveSlot(c: Call)
    | Deliver(c: Call)
    | Discard(c: Call)
    | SeeDying
    | SeeClose
    | StoreResult
    | KillTomb
    | MarkDone
    | Close
    | Kill

  predicate Limited(cfg: Config) {
    cfg.maxParallel > 0
  }

  function Init(cfg: Config): State {
    State(map[], Looping(None, false, 0), if Limited(cfg) then cfg.maxParallel else 0,
          false, false, None, None, [], [])
  }

  predicate At(s: State, c: Call, pc: Pc) {
    c in s.calls && s.calls[c] == pc
  }

  predicate Enabled(cfg: Config, s: State, step: Step) {
    match step
    case CallStart(c) => c !in s.calls
    case TakeSlot(c) => At(s, c, WantSlot) && s.free > 0
    case StopWaiting(c) => At(s, c, WantSlot) && s.dying
    case CloseWaiting(c) => At(s, c, WantSlot) && s.closed
    case Accept(c) => At(s, c, Offering) && s.loop.Looping?
    case StopOffer(c) => At(s, c, Offering) && s.dying
    case CloseOffer(c) => At(s, c, Offering) && s.closed
    case Return(c, outcome) => At(s, c, Executing)
    case GiveSlot(c) => c in s.calls && s.calls[c].ReturningSlot? && s.free < cfg.maxParallel
    case Deliver(c) => c in s.calls && s.calls[c].Delivering? && s.loop.Looping?
    case Discard(c) => c in s.calls && s.calls[c].Delivering? && s.dying
    case SeeDying => s.loop.Looping? && s.dying
    case SeeClose => s.loop.Looping? && !s.loop.closeSeen && s.closed
    case StoreResult => s.loop.Returned? && s.loop.stage == ResultReady
    case KillTomb => s.loop.Returned? && s.loop.stage == ResultStored
    case MarkDone => s.loop.Returned? && s.loop.stage == TombKilled
    case Close => true
    case Kill => true
  }

  function Goto(s: State, c: Call, pc: Pc): State {
    s.(calls := s.calls[c := pc])
  }

  /** tomb.Kill: the first non-nil reason stays. */
  function TombKill(s: State, reason: Option<Error>): State {
    s.(dying := true, reason := if s.reason == None then reason else s.reason)
  }

  /** The body of the loop for a received result. */
  function Receive(cfg: Config, l: Loop, c: Call, r: Outcome): Loop
    requires l.Looping?
  {
    match r
    case Value => Returned(Some(c), None, BySuccess, ResultReady)
    case Failure(e) =>
      var err := cfg.combine(l.err, e);
      if l.closeSeen && l.nrunning - 1 == 0 then Returned(None, err, ByCompletion, ResultReady)
      else Looping(err, l.closeSeen, l.nrunning - 1)
  }

  function Apply(cfg: Config, s: State, step: Step): State
    requires Enabled(cfg, s, step)
  {
    match step
    case CallStart(c) => Goto(s, c, if Limited(cfg) then WantSlot else Offering)
    case TakeSlot(c) => Goto(s, c, Offering).(free := s.free - 1)
    case StopWaiting(c) => Goto(s, c, Refused(ErrStopped, false))
    case CloseWaiting(c) => Goto(s, c, Refused(ErrClosed, false))
    case Accept(c) => Goto(s, c, Executing).(loop := s.loop.(nrunning := s.loop.nrunning + 1))
    case StopOffer(c) => Goto(s, c, Refused(ErrStopped, Limited(cfg)))
    case CloseOffer(c) => Goto(s, c, Refused(ErrClosed, Limited(cfg)))
    case Return(c, outcome) => Goto(s, c, if Limited(cfg) then ReturningSlot(outcome) else Delivering(outcome))
    case GiveSlot(c) => Goto(s, c, Delivering(s.calls[c].r)).(free := s.free + 1)
    case Deliver(c) =>
      var r := s.calls[c].r;
      Goto(s, c, Received(r)).(loop := Receive(cfg, s.loop, c, r), received := s.received + [(c, r)])
    case Discard(c) =>
      var r := s.calls[c].r;
      Goto(s, c, Discarded(r)).(closes := s.closes + if r.Value? then [c] else [])
    case SeeDying =>
      s.(loop := Returned(None, if s.loop.err == None then Some(ErrStopped) else s.loop.err, ByDying, ResultReady))
    case SeeClose =>
      if s.loop.nrunning == 0 then s.(loop := Returned(None, s.loop.err, ByCompletion, ResultReady))
      else s.(loop := s.loop.(closeSeen := true))
    case StoreResult => s.(endResult := s.loop.val, loop := s.loop.(stage := ResultStored))
    case KillTomb => TombKill(s, s.loop.res).(loop := s.loop.(stage := TombKilled))
    case MarkDone => s.(loop := s.loop.(stage := TombDone))
    case Close => s.(closed := true)
    case Kill => TombKill(s, None)
  }

  /** The transition system. */
  function Succ(cfg: Config): (State, Step) -> Option<State> {
    (s, step) => if Enabled(cfg, s, step) then Some(Apply(cfg, s, step)) else None
  }

  // ----- what a call's position means

  /** Calls that hold a slot. */
  predicate Holds(pc: Pc) {
    pc.Offering? || pc.Executing? || pc.ReturningSlot?
  }

  /** Refused calls that took a slot and never gave it back. */
  predicate Abandoned(pc: Pc) {
    pc.Refused? && pc.tookSlot
  }

  /** Started functions whose result the loop has not received. */
  predicate Outstanding(pc: Pc) {
    pc.Executing? || pc.ReturningSlot? || pc.Delivering? || pc.Discarded?
  }

  predicate Executes(pc: Pc) {
    pc.Executing?
  }

  // ----- slots

  ghost predicate Slots(cfg: Config, calls: map<Call, Pc>, free: nat, over: bool) {
    && (Limited(cfg) ==> free + |Having(calls, Holds)| + |Having(calls, Abandoned)| == cfg.maxParallel)
    && (forall c :: c in calls && Abandoned(calls[c]) ==> over)
    && (!Limited(cfg) ==> forall c :: c in calls ==> !Slotted(calls[c]))
  }

  /** Positions only a call of a limited Try can have. */
  predicate Slotted(pc: Pc) {
    pc.WantSlot? || pc.ReturningSlot? || Abandoned(pc)
  }

  ghost predicate SlotInv(cfg: Config, s: State) {
    Slots(cfg, s.calls, s.free, s.closed || s.dying)
  }

  /** The slot c accounts for. */
  function Slot(pc: Pc): nat {
    if Holds(pc) || Abandoned(pc) then 1 else 0
  }

  lemma SlotMove(cfg: Config, s: State, c: Call, pc: Pc, free: nat)
    requires SlotInv(cfg, s)
    requires Limited(cfg) ==> free + Slot(pc) == s.free + if c in s.calls then Slot(s.calls[c]) else 0
    requires Abandoned(pc) ==> s.closed || s.dying
    requires !Limited(cfg) ==> !Slotted(pc)
    ensures Slots(cfg, s.calls[c := pc], free, s.closed || s.dying)
  {
    HavingUpdate(s.calls, c, pc, Holds);
    HavingUpdate(s.calls, c, pc, Abandoned);
  }

  lemma SlotsOver(cfg: Config, calls: map<Call, Pc>, free: nat, over: bool)
    requires Slots(cfg, calls, free, over)
    ensures Slots(cfg, calls, free, true)
  {
  }

  lemma SlotStep(cfg: Config, s: State, step: Step)
    requires SlotInv(cfg, s) && Enabled(cfg, s, step)
    ensures SlotInv(cfg, Apply(cfg, s, step))
  {
    hide Having, Slots;
    SlotsOver(cfg, s.calls, s.free, s.closed || s.dying);
    match step {
      case CallStart(c) => SlotMove(cfg, s, c, if Limited(cfg) then WantSlot else Offering, s.free);
      case TakeSlot(c) => SlotMove(cfg, s, c, Offering, s.free - 1);
      case StopWaiting(c) => SlotMove(cfg, s, c, Refused(ErrStopped, false), s.free);
      case CloseWaiting(c) => SlotMove(cfg, s, c, Refused(ErrClosed, false), s.free);
      case Accept(c) => SlotMove(cfg, s, c, Executing, s.free);
      case StopOffer(c) => SlotMove(cfg, s, c, Refused(ErrStopped, Limited(cfg)), s.free);
      case CloseOffer(c) => SlotMove(cfg, s, c, Refused(ErrClosed, Limited(cfg)), s.free);
      case Return(c, r) => SlotMove(cfg, s, c, if Limited(cfg) then ReturningSlot(r) else Delivering(r), s.free);
      case GiveSlot(c) => SlotMove(cfg, s, c, Delivering(s.calls[c].r), s.free + 1);
      case Deliver(c) => SlotMove(cfg, s, c, Received(s.calls[c].r), s.free);
      case Discard(c) => SlotMove(cfg, s, c, Discarded(s.calls[c].r), s.free);
      case _ =>
    }
  }

  /** At most maxParallel functions execute at once, and giving a slot back never blocks. */
  lemma SlotsSuffice(cfg: Config, s: State)
    requires SlotInv(cfg, s) && Limited(cfg)
    ensures |Having(s.calls, Executes)| <= cfg.maxParallel
    ensures forall c :: c in s.calls && s.calls[c].ReturningSlot? ==> Enabled(cfg, s, GiveSlot(c))
  {
    HavingWeaker(s.calls, Executes, Holds);
    forall c | c in s.calls && s.calls[c].ReturningSlot?
      ensures s.free < cfg.maxParallel
    {
      CountWithout(Having(s.calls, Holds), c);
    }
  }

  // ----- the loop's accounting

  ghost predicate Accounts(calls: map<Call, Pc>, loop: Loop, closed: bool, dying: bool) {
    && (loop.Looping? ==> loop.nrunning == |Having(calls, Outstanding)|)
    && (loop.Looping? && loop.closeSeen ==> closed && loop.nrunning > 0)
    && (loop.Returned? && loop.exit.ByCompletion? ==> closed && |Having(calls, Outstanding)| == 0)
    && (loop.Returned? && (loop.exit.ByDying? || loop.stage == TombKilled || loop.stage == TombDone) ==> dying)
    && (forall c :: c in calls && calls[c].Discarded? ==> dying)
  }

  ghost predicate LoopInv(s: State) {
    Accounts(s.calls, s.loop, s.closed, s.dying)
  }

  lemma AccountsMove(s: State, c: Call, pc: Pc)
    requires LoopInv(s) && (pc.Discarded? ==> s.dying)
    requires Outstanding(pc) <==> c in s.calls && Outstanding(s.calls[c])
    ensures Accounts(s.calls[c := pc], s.loop, s.closed, s.dying)
  {
    HavingUpdate(s.calls, c, pc, Outstanding);
  }

  lemma LoopStep(cfg: Config, s: State, step: Step)
    requires LoopInv(s) && Enabled(cfg, s, step)
    ensures LoopInv(Apply(cfg, s, step))
  {
    hide Having;
    match step {
      case CallStart(c) => AccountsMove(s, c, if Limited(cfg) then WantSlot else Offering);
      case TakeSlot(c) => AccountsMove(s, c, Offering);
      case StopWaiting(c) => AccountsMove(s, c, Refused(ErrStopped, false));
      case CloseWaiting(c) => AccountsMove(s, c, Refused(ErrClosed, false));
      case Accept(c) => HavingUpdate(s.calls, c, Executing, Outstanding);
      case StopOffer(c) => AccountsMove(s, c, Refused(ErrStopped, Limited(cfg)));
      case CloseOffer(c) => AccountsMove(s, c, Refused(ErrClosed, Limited(cfg)));
      case Return(c, r) => AccountsMove(s, c, if Limited(cfg) then ReturningSlot(r) else Delivering(r));
      case GiveSlot(c) => AccountsMove(s, c, Delivering(s.calls[c].r));
      case Deliver(c) => HavingUpdate(s.calls, c, Received(s.calls[c].r), Outstanding);
      case Discard(c) => AccountsMove(s, c, Discarded(s.calls[c].r));
      case _ =>
    }
  }

  // ----- where each returned value is

  /** The function has returned with outcome r. */
  predicate Yielded(pc: Pc, r: Outcome) {
    (pc.ReturningSlot? || pc.Delivering? || pc.Received? || pc.Discarded?) && pc.r == r
  }

  /** The value of c is still on its way to the loop. */
  predicate Awaiting(s: State, c: Call) {
    At(s, c, ReturningSlot(Value)) || At(s, c, Delivering(Value))
  }

  predicate IsResult(s: State, c: Call) {
    s.loop.Returned? && s.loop.val == Some(c)
  }

  /** What holds of c and outcome r after the steps in hist. */
  ghost predicate CallInv(s: State, hist: multiset<Step>, c: Call, r: Outcome) {
    && ReturnsOf(s, hist, c, r)
    && multiset(s.received)[(c, r)] == Bit(At(s, c, Received(r)))
    && multiset(s.closes)[c] == Bit(At(s, c, Discarded(Value)))
    && ResultOf(s, c)
  }

  ghost predicate ReturnsOf(s: State, hist: multiset<Step>, c: Call, r: Outcome) {
    hist[Return(c, r)] == Bit(c in s.calls && Yielded(s.calls[c], r))
  }

  ghost predicate ResultOf(s: State, c: Call) {
    && (At(s, c, Received(Value)) <==> IsResult(s, c))
    && (s.loop.Looping? ==> s.endResult == None)
    && (s.loop.Returned? ==> s.endResult == if s.loop.stage == ResultReady then None else s.loop.val)
  }

  lemma ReturnsStep(cfg: Config, s: State, step: Step, hist: multiset<Step>, c: Call, r: Outcome)
    requires ReturnsOf(s, hist, c, r) && Enabled(cfg, s, step)
    ensures ReturnsOf(Apply(cfg, s, step), hist + multiset{step}, c, r)
  {
    assert (hist + multiset{step})[Return(c, r)] == hist[Return(c, r)] + Bit(step == Return(c, r));
  }

  /** Other steps than Deliver leave what was received alone, and other steps than Discard what was closed. */
  lemma EndsKept(cfg: Config, s: State, step: Step, c: Call, r: Outcome)
    requires Enabled(cfg, s, step)
    ensures var t := Apply(cfg, s, step);
            && (!step.Deliver? ==> t.received == s.received && (At(t, c, Received(r)) <==> At(s, c, Received(r))))
            && (!step.Discard? ==> t.closes == s.closes && (At(t, c, Discarded(r)) <==> At(s, c, Discarded(r))))
  {
    hide Receive, Limited;
  }

  lemma ReceivedStep(cfg: Config, s: State, step: Step, c: Call, r: Outcome)
    requires multiset(s.received)[(c, r)] == Bit(At(s, c, Received(r))) && Enabled(cfg, s, step)
    ensures var t := Apply(cfg, s, step); multiset(t.received)[(c, r)] == Bit(At(t, c, Received(r)))
  {
    if !step.Deliver? {
      EndsKept(cfg, s, step, c, r);
      hide Apply, Enabled;
    }
  }

  lemma ClosesStep(cfg: Config, s: State, step: Step, c: Call)
    requires multiset(s.closes)[c] == Bit(At(s, c, Discarded(Value))) && Enabled(cfg, s, step)
    ensures var t := Apply(cfg, s, step); multiset(t.closes)[c] == Bit(At(t, c, Discarded(Value)))
  {
    if !step.Discard? {
      EndsKept(cfg, s, step, c, Value);
      hide Apply, Enabled;
    }
  }

  lemma ResultOfStep(cfg: Config, s: State, step: Step, c: Call)
    requires ResultOf(s, c) && Enabled(cfg, s, step)
    ensures ResultOf(Apply(cfg, s, step), c)
  {
  }

  lemma CallStep(cfg: Config, s: State, step: Step, hist: multiset<Step>, c: Call, r: Outcome)
    requires CallInv(s, hist, c, r) && Enabled(cfg, s, step)
    ensures CallInv(Apply(cfg, s, step), hist + multiset{step}, c, r)
  {
    hide Enabled, Apply, ReturnsOf, ResultOf;
    ReturnsStep(cfg, s, step, hist, c, r);
    ReceivedStep(cfg, s, step, c, r);
    ClosesStep(cfg, s, step, c);
    ResultOfStep(cfg, s, step, c);
  }

  // ----- what the loop computes

  /** The errors received, folded from nil in the order received. */
  function Fold(cfg: Config, received: seq<(Call, Outcome)>): Option<Error>
    requires AllFailed(received)
  {
    if received == [] then None
    else cfg.combine(Fold(cfg, received[..|received| - 1]), received[|received| - 1].1.error)
  }

  predicate AllFailed(received: seq<(Call, Outcome)>) {
    forall i :: 0 <= i < |received| ==> received[i].1.Failure?
  }

  /** What the loop returns, for each way it can end. */
  ghost predicate Outcomes(cfg: Config, received: seq<(Call, Outcome)>, val: Option<Call>, res: Option<Error>, exit: Exit) {
    match exit
    case BySuccess =>
      && received != [] && AllFailed(received[..|received| - 1])
      && received[|received| - 1].1 == Value
      && val == Some(received[|received| - 1].0) && res == None
    case ByCompletion =>
      AllFailed(received) && val == None && res == Fold(cfg, received)
    case ByDying =>
      && AllFailed(received) && val == None
      && res == if Fold(cfg, received) == None then Some(ErrStopped) else Fold(cfg, received)
  }

  ghost predicate ResultInv(cfg: Config, s: State) {
    match s.loop
    case Looping(err, _, _) =>
      AllFailed(s.received) && err == Fold(cfg, s.received) && s.reason == None
    case Returned(val, res, exit, stage) =>
      && Outcomes(cfg, s.received, val, res, exit)
      && s.reason == (if stage == TombKilled || stage == TombDone then res else None)
  }

  lemma ReceiveStep(cfg: Config, s: State, c: Call, r: Outcome)
    requires ResultInv(cfg, s) && s.loop.Looping?
    ensures ResultInv(cfg, s.(loop := Receive(cfg, s.loop, c, r), received := s.received + [(c, r)]))
  {
    assert (s.received + [(c, r)])[..|s.received|] == s.received;
  }

  lemma ResultStep(cfg: Config, s: State, step: Step)
    requires ResultInv(cfg, s) && Enabled(cfg, s, step)
    ensures ResultInv(cfg, Apply(cfg, s, step))
  {
    if step.Deliver? {
      hide Fold, AllFailed, Receive;
      ReceiveStep(cfg, s, step.c, s.calls[step.c].r);
    }
  }

  // ----- every reachable state

  ghost predicate Inv(cfg: Config, s: State) {
    SlotInv(cfg, s) && LoopInv(s) && ResultInv(cfg, s)
  }

  lemma InitInv(cfg: Config)
    ensures Inv(cfg, Init(cfg))
    ensures forall c, r :: CallInv(Init(cfg), multiset{}, c, r)
  {
    assert Having(Init(cfg).calls, Holds) == {} == Having(Init(cfg).calls, Abandoned);
    assert Having(Init(cfg).calls, Outstanding) == {};
  }

  lemma StepInv(cfg: Config, s: State, step: Step)
    requires Inv(cfg, s) && Enabled(cfg, s, step)
    ensures Inv(cfg, Apply(cfg, s, step))
  {
    hide SlotInv, LoopInv, ResultInv, Apply;
    SlotStep(cfg, s, step);
    LoopStep(cfg, s, step);
    ResultStep(cfg, s, step);
  }

  lemma LeadsInv(cfg: Config, s: State, steps: seq<Step>, t: State)
    requires Inv(cfg, s) && Leads(Succ(cfg), s, steps, t)
    ensures Inv(cfg, t)
  {
    hide Inv, Enabled, Apply;
    var inv := (x: State) => Inv(cfg, x);
    forall x, a | inv(x) && Succ(cfg)(x, a).Some?
      ensures inv(Succ(cfg)(x, a).value)
    {
      StepInv(cfg, x, a);
    }
    Invariant(Succ(cfg), inv, s, steps, t);
  }

  lemma {:induction false} LeadsCallInv(cfg: Config, s: State, steps: seq<Step>, t: State,
                                        hist: multiset<Step>, c: Call, r: Outcome)
    requires CallInv(s, hist, c, r) && Leads(Succ(cfg), s, steps, t)
    ensures CallInv(t, hist + multiset(steps), c, r)
    decreases |steps|
  {
    hide CallInv;
    if steps == [] {
      assert hist + multiset(steps) == hist;
    } else {
      CallStep(cfg, s, steps[0], hist, c, r);
      LeadsCallInv(cfg, Apply(cfg, s, steps[0]), steps[1..], t, hist + multiset{steps[0]}, c, r);
      assert steps == [steps[0]] + steps[1..];
      assert hist + multiset{steps[0]} + multiset(steps[1..]) == hist + multiset(steps);
    }
  }

  /** Started at some point. */
  predicate Started(s: State, c: Call) {
    c in s.calls && (Outstanding(s.calls[c]) || s.calls[c].Received?)
  }

  // ----- what the steps of a run say

  lemma RequestStep(cfg: Config, s: State, step: Step)
    requires Enabled(cfg, s, step)
    ensures Apply(cfg, s, step).closed <==> s.closed || step == Close
    ensures Apply(cfg, s, step).dying <==> s.dying || step == Kill || step == KillTomb
  {
    hide Receive;
  }

  /** Close and Kill take effect, and nothing else closes the Try or makes it die but the end of the loop. */
  lemma {:induction false} RequestsTaken(cfg: Config, steps: seq<Step>, s: State)
    requires Leads(Succ(cfg), Init(cfg), steps, s)
    ensures s.closed <==> Close in steps
    ensures s.dying <==> Kill in steps || KillTomb in steps
    decreases |steps|
  {
    hide Enabled, Apply;
    if steps == [] {
    } else {
      var mid := BeforeLast(Succ(cfg), Init(cfg), steps, s);
      RequestsTaken(cfg, steps[..|steps| - 1], mid);
      RequestStep(cfg, mid, steps[|steps| - 1]);
      InSnoc(steps, Close);
      InSnoc(steps, Kill);
      InSnoc(steps, KillTomb);
    }
  }

  /** The selects by which a call is refused with the given error. */
  predicate RefusedBy(steps: seq<Step>, c: Call, why: Error) {
    match why
    case ErrStopped => StopWaiting(c) in steps || StopOffer(c) in steps
    case ErrClosed => CloseWaiting(c) in steps || CloseOffer(c) in steps
    case Other(_) => false
  }

  /** A Try gives this error while it is dying, or once it is closed. */
  predicate Warranted(s: State, why: Error) {
    match why
    case ErrStopped => s.dying
    case ErrClosed => s.closed
    case Other(_) => false
  }

  lemma RefusalStep(cfg: Config, s: State, step: Step, c: Call)
    requires Enabled(cfg, s, step)
    ensures var t := Apply(cfg, s, step);
            c in t.calls && t.calls[c].Refused? ==>
              (c in s.calls && s.calls[c] == t.calls[c])
              || (RefusedBy([step], c, t.calls[c].why) && Warranted(s, t.calls[c].why))
  {
    hide Receive, Limited;
  }

  lemma RefusedSnoc(steps: seq<Step>, c: Call, why: Error)
    requires steps != []
    ensures RefusedBy(steps, c, why) <==>
              RefusedBy(steps[..|steps| - 1], c, why) || RefusedBy([steps[|steps| - 1]], c, why)
  {
    InSnoc(steps, StopWaiting(c));
    InSnoc(steps, StopOffer(c));
    InSnoc(steps, CloseWaiting(c));
    InSnoc(steps, CloseOffer(c));
  }

  /** The error a refused call gives is the reason it was refused for. */
  lemma {:induction false} RefusalsExplained(cfg: Config, steps: seq<Step>, s: State, c: Call)
    requires Leads(Succ(cfg), Init(cfg), steps, s)
    ensures c in s.calls && s.calls[c].Refused? ==> RefusedBy(steps, c, s.calls[c].why) && Warranted(s, s.calls[c].why)
    decreases |steps|
  {
    hide Enabled, Apply, RefusedBy;
    if steps == [] {
    } else {
      var mid := BeforeLast(Succ(cfg), Init(cfg), steps, s);
      RefusalsExplained(cfg, steps[..|steps| - 1], mid, c);
      RefusalStep(cfg, mid, steps[|steps| - 1], c);
      RequestStep(cfg, mid, steps[|steps| - 1]);
      if c in s.calls && s.calls[c].Refused? {
        RefusedSnoc(steps, c, s.calls[c].why);
      }
    }
  }

  /** What the function of c returned. */
  function OutcomeOf(steps: seq<Step>, c: Call): Option<Outcome> {
    if steps == [] then None
    else
      var last := steps[|steps| - 1];
      if last.Return? && last.c == c then Some(last.outcome) else OutcomeOf(steps[..|steps| - 1], c)
  }

  /** The outcomes handed to the loop, in the order of the deliveries. */
  function Delivered(steps: seq<Step>): seq<(Call, Outcome)> {
    if steps == [] then []
    else
      var before, last := steps[..|steps| - 1], steps[|steps| - 1];
      Delivered(before) + if last.Deliver? && OutcomeOf(before, last.c).Some?
                          then [(last.c, OutcomeOf(before, last.c).value)] else []
  }

  predicate HasOutcome(pc: Pc) {
    pc.ReturningSlot? || pc.Delivering? || pc.Received? || pc.Discarded?
  }

  lemma OutcomeStep(cfg: Config, s: State, step: Step, c: Call)
    requires Enabled(cfg, s, step)
    ensures var t := Apply(cfg, s, step);
            && (Started(t, c) <==> Started(s, c) || step == Accept(c))
            && (c in t.calls && HasOutcome(t.calls[c]) ==>
                  if step.Return? && step.c == c then t.calls[c].r == step.outcome
                  else c in s.calls && HasOutcome(s.calls[c]) && t.calls[c].r == s.calls[c].r)
  {
    hide Receive, Limited;
  }

  lemma {:induction false} OutcomesAreSteps(cfg: Config, steps: seq<Step>, s: State, c: Call)
    requires Leads(Succ(cfg), Init(cfg), steps, s)
    ensures Started(s, c) <==> Accept(c) in steps
    ensures c in s.calls && HasOutcome(s.calls[c]) ==> OutcomeOf(steps, c) == Some(s.calls[c].r)
    decreases |steps|
  {
    hide Enabled, Apply, Started;
    if steps == [] {
      NoneStarted(cfg, c);
    } else {
      var mid := BeforeLast(Succ(cfg), Init(cfg), steps, s);
      OutcomesAreSteps(cfg, steps[..|steps| - 1], mid, c);
      OutcomeStep(cfg, mid, steps[|steps| - 1], c);
      InSnoc(steps, Accept(c));
    }
  }

  lemma NoneStarted(cfg: Config, c: Call)
    ensures !Started(Init(cfg), c)
  {
  }

  lemma {:induction false} ReceivedIsSteps(cfg: Config, steps: seq<Step>, s: State)
    requires Leads(Succ(cfg), Init(cfg), steps, s)
    ensures s.received == Delivered(steps)
    decreases |steps|
  {
    hide Receive, Limited;
    if steps == [] {
    } else {
      var before, last := steps[..|steps| - 1], steps[|steps| - 1];
      var mid := BeforeLast(Succ(cfg), Init(cfg), steps, s);
      ReceivedIsSteps(cfg, before, mid);
      if last.Deliver? {
        OutcomesAreSteps(cfg, before, mid, last.c);
      }
    }
  }

  /**
   Conservation of values: over every run, the number of times the function of
   c returned a value, which is at most one, is the number of places where that
   value is: on its way, the loop's result, or an entry in the list of closed
   values.
   */
  lemma ValuesConserved(cfg: Config, steps: seq<Step>, s: State, c: Call)
    requires Leads(Succ(cfg), Init(cfg), steps, s)
    ensures multiset(steps)[Return(c, Value)]
         == Bit(Awaiting(s, c)) + Bit(IsResult(s, c)) + multiset(s.closes)[c] <= 1
    ensures s.endResult == Some(c) ==> IsResult(s, c) && c !in s.closes
    ensures s.loop.Returned? && s.loop.stage == TombDone ==> s.endResult == s.loop.val
  {
    InitInv(cfg);
    LeadsCallInv(cfg, Init(cfg), steps, s, multiset{}, c, Value);
    assert multiset{} + multiset(steps) == multiset(steps);
  }

  /** The loop receives each function's outcome at most once, and only what the function returned. */
  lemma ReceivedOnce(cfg: Config, steps: seq<Step>, s: State, c: Call, r: Outcome)
    requires Leads(Succ(cfg), Init(cfg), steps, s)
    ensures multiset(s.received)[(c, r)] <= multiset(steps)[Return(c, r)] <= 1
    ensures (c, r) in s.received ==> At(s, c, Received(r))
  {
    InitInv(cfg);
    LeadsCallInv(cfg, Init(cfg), steps, s, multiset{}, c, r);
    assert multiset{} + multiset(steps) == multiset(steps);
  }

  /** Slots are conserved, and abandoned only by a Try that is closed or dying. */
  lemma SlotsConserved(cfg: Config, steps: seq<Step>, s: State)
    requires Limited(cfg) && Leads(Succ(cfg), Init(cfg), steps, s)
    ensures s.free + |Having(s.calls, Holds)| + |Having(s.calls, Abandoned)| == cfg.maxParallel
    ensures Having(s.calls, Abandoned) != {} ==> s.closed || s.dying
    ensures |Having(s.calls, Executes)| <= cfg.maxParallel
    ensures forall c :: c in s.calls && s.calls[c].ReturningSlot? ==> Enabled(cfg, s, GiveSlot(c))
  {
    InitInv(cfg);
    LeadsInv(cfg, Init(cfg), steps, s);
    SlotsSuffice(cfg, s);
  }

  /** nrunning counts the started functions not yet received; a loop that has seen close has some. */
  lemma RunningCounted(cfg: Config, steps: seq<Step>, s: State)
    requires Leads(Succ(cfg), Init(cfg), steps, s) && s.loop.Looping?
    ensures s.loop.nrunning == |Having(s.calls, Outstanding)|
    ensures s.loop.closeSeen ==> s.closed && s.loop.nrunning > 0
    ensures forall c :: c in s.calls && s.calls[c].Discarded? ==> s.dying
  {
    InitInv(cfg);
    LeadsInv(cfg, Init(cfg), steps, s);
  }

  /**
   What Result gives once the tomb is dead: the first value received with a nil
   error, or no value and the fold of the errors received; only a Try that was
   killed turns a nil fold into ErrStopped.
   */
  lemma ResultCorrect(cfg: Config, steps: seq<Step>, s: State)
    requires Leads(Succ(cfg), Init(cfg), steps, s)
    requires s.loop.Returned? && s.loop.stage == TombDone
    ensures Outcomes(cfg, Delivered(steps), s.endResult, s.reason, s.loop.exit)
    ensures s.loop.exit.ByCompletion? ==> s.closed && Having(s.calls, Outstanding) == {}
    ensures s.endResult.Some? ==> At(s, s.endResult.value, Received(Value))
    ensures s.endResult == None && s.reason == None <==>
              s.loop.exit.ByCompletion? && AllFailed(Delivered(steps)) && Fold(cfg, Delivered(steps)) == None
  {
    InitInv(cfg);
    LeadsInv(cfg, Init(cfg), steps, s);
    ReceivedIsSteps(cfg, steps, s);
    LeadsCallInv(cfg, Init(cfg), steps, s, multiset{}, 0, Value);
    if s.endResult.Some? {
      LeadsCallInv(cfg, Init(cfg), steps, s, multiset{}, s.endResult.value, Value);
    }
  }

  // ----- progress

  /** Steps of the loop's goroutine and of started functions that return what out says. */
  predicate Inner(out: Call -> Outcome, step: Step) {
    match step
    case Return(c, r) => r == out(c)
    case _ => (step.GiveSlot? || step.Deliver? || step.SeeDying? || step.SeeClose?
               || step.StoreResult? || step.KillTomb? || step.MarkDone?)
  }

  predicate AllInner(out: Call -> Outcome, steps: seq<Step>) {
    forall i :: 0 <= i < |steps| ==> Inner(out, steps[i])
  }

  /** Once the loop has returned, its goroutine can run to the end. */
  lemma Finish(cfg: Config, s: State, out: Call -> Outcome) returns (steps: seq<Step>, t: State)
    requires s.loop.Returned?
    ensures Leads(Succ(cfg), s, steps, t) && AllInner(out, steps)
    ensures t.loop == s.loop.(stage := TombDone) && t.calls == s.calls
    decreases if s.loop.stage == ResultReady then 3 else if s.loop.stage == ResultStored then 2
              else if s.loop.stage == TombKilled then 1 else 0
  {
    if s.loop.stage == TombDone {
      steps, t := [], s;
    } else {
      var step := if s.loop.stage == ResultReady then StoreResult
                  else if s.loop.stage == ResultStored then KillTomb else MarkDone;
      steps, t := Finish(cfg, Apply(cfg, s, step), out);
      LeadsOne(Succ(cfg), s, step, steps, t);
      steps := [step] + steps;
    }
  }

  function Distance(pc: Pc): nat {
    if pc.Executing? then 2 else if pc.ReturningSlot? then 1 else 0
  }

  /** An outstanding function can hand its outcome to the loop. */
  lemma Drive(cfg: Config, s: State, c: Call, out: Call -> Outcome) returns (steps: seq<Step>, t: State)
    requires Inv(cfg, s) && s.loop.Looping?
    requires c in s.calls && Outstanding(s.calls[c]) && !s.calls[c].Discarded?
    ensures Leads(Succ(cfg), s, steps, t) && AllInner(out, steps) && Inv(cfg, t)
    ensures t.closed == s.closed && t.dying == s.dying
    ensures t.loop.Returned? || t.loop.nrunning == s.loop.nrunning - 1
    decreases Distance(s.calls[c])
  {
    hide Inv, Leads, Enabled, Apply, Outstanding;
    var step, u := DriveStep(cfg, s, c, out);
    if step.Deliver? {
      steps, t := [], u;
      Stays(Succ(cfg), u);
    } else {
      steps, t := Drive(cfg, u, c, out);
    }
    LeadsOne(Succ(cfg), s, step, steps, t);
    steps := [step] + steps;
  }

  /** The next step of a function on its way to the loop. */
  lemma DriveStep(cfg: Config, s: State, c: Call, out: Call -> Outcome) returns (step: Step, u: State)
    requires Inv(cfg, s) && s.loop.Looping?
    requires c in s.calls && Outstanding(s.calls[c]) && !s.calls[c].Discarded?
    ensures Enabled(cfg, s, step) && u == Apply(cfg, s, step) && Inner(out, step) && Inv(cfg, u)
    ensures u.closed == s.closed && u.dying == s.dying
    ensures if step.Deliver? then u.loop.Returned? || u.loop.nrunning == s.loop.nrunning - 1
            else u.loop == s.loop && c in u.calls && Outstanding(u.calls[c]) && !u.calls[c].Discarded?
                 && Distance(u.calls[c]) < Distance(s.calls[c])
  {
    hide SlotInv, LoopInv, ResultInv;
    step := match s.calls[c]
      case Executing => Return(c, out(c))
      case ReturningSlot(_) => GiveSlot(c)
      case _ => Deliver(c);
    if step.GiveSlot? {
      SlotHeld(cfg, s, c);
    }
    u := Apply(cfg, s, step);
    StepInv(cfg, s, step);
  }

  lemma SlotHeld(cfg: Config, s: State, c: Call)
    requires SlotInv(cfg, s) && c in s.calls && s.calls[c].ReturningSlot?
    ensures Enabled(cfg, s, GiveSlot(c))
  {
    if Limited(cfg) {
      SlotsSuffice(cfg, s);
    }
  }

  /** A live loop that waits for results has a function to wait for. */
  lemma SomeOutstanding(s: State) returns (c: Call)
    requires LoopInv(s) && s.loop.Looping? && s.loop.nrunning != 0 && !s.dying
    ensures c in s.calls && Outstanding(s.calls[c]) && !s.calls[c].Discarded?
  {
    c :| c in Having(s.calls, Outstanding);
  }

  lemma Drain(cfg: Config, s: State, out: Call -> Outcome) returns (steps: seq<Step>, t: State)
    requires Inv(cfg, s) && s.loop.Looping? && (s.closed || s.dying) && s.loop.nrunning >= 0
    ensures Leads(Succ(cfg), s, steps, t) && AllInner(out, steps) && t.loop.Returned?
    decreases s.loop.nrunning, !s.loop.closeSeen
  {
    hide SlotInv, LoopInv, ResultInv;
    var u, first;
    if s.dying || !s.loop.closeSeen {
      var step := if s.dying then SeeDying else SeeClose;
      u, first := Apply(cfg, s, step), [step];
      Stays(Succ(cfg), u);
      LeadsOne(Succ(cfg), s, step, [], u);
      assert [step] + [] == first;
      StepInv(cfg, s, step);
    } else {
      CloseSeenWaits(s);
      var c := SomeOutstanding(s);
      first, u := Drive(cfg, s, c, out);
    }
    if u.loop.Returned? {
      steps, t := first, u;
    } else {
      NonNegative(u);
      steps, t := Drain(cfg, u, out);
      LeadsOn(Succ(cfg), s, first, u, steps, t);
      steps := first + steps;
    }
  }

  lemma CloseSeenWaits(s: State)
    requires LoopInv(s) && s.loop.Looping? && s.loop.closeSeen
    ensures s.loop.nrunning > 0
  {
  }

  lemma NonNegative(s: State)
    requires LoopInv(s) && s.loop.Looping?
    ensures s.loop.nrunning >= 0
  {
  }

  /**
   No reachable state is stuck: from any reachable state after a Close, a Kill
   or the return of the loop, the loop's goroutine and the started functions
   can run to the end with no further call from outside, whatever the functions
   return.
   */
  lemma CanAlwaysFinish(cfg: Config, before: seq<Step>, s: State, out: Call -> Outcome)
    returns (steps: seq<Step>, t: State)
    requires Leads(Succ(cfg), Init(cfg), before, s) && (Close in before || Kill in before || s.loop.Returned?)
    ensures Leads(Succ(cfg), s, steps, t) && AllInner(out, steps)
    ensures t.loop.Returned? && t.loop.stage == TombDone
  {
    InitInv(cfg);
    LeadsInv(cfg, Init(cfg), before, s);
    RequestsTaken(cfg, before, s);
    var mid, u := [], s;
    if s.loop.Looping? {
      mid, u := Drain(cfg, s, out);
    }
    steps, t := Finish(cfg, u, out);
    LeadsOn(Succ(cfg), s, mid, u, steps, t);
    steps := mid + steps;
  }

  /** Functions that have not come to their end. */
  predicate Live(pc: Pc) {
    pc.Executing? || pc.ReturningSlot? || pc.Delivering?
  }

  /** Inner steps, and functions discarding their outcome. */
  predicate AllSettling(out: Call -> Outcome, steps: seq<Step>) {
    forall i :: 0 <= i < |steps| ==> Inner(out, steps[i]) || steps[i].Discard?
  }

  /** The next step of a function on its way to discarding its outcome. */
  lemma SettleStep(cfg: Config, s: State, c: Call, out: Call -> Outcome) returns (step: Step, u: State)
    requires Inv(cfg, s) && s.loop.Returned? && s.dying && c in s.calls && Live(s.calls[c])
    ensures Enabled(cfg, s, step) && u == Apply(cfg, s, step) && AllSettling(out, [step]) && Inv(cfg, u)
    ensures u.loop == s.loop && u.dying && c in u.calls && u.calls == s.calls[c := u.calls[c]]
    ensures if step.Discard? then u.calls[c].Discarded?
            else Live(u.calls[c]) && Distance(u.calls[c]) < Distance(s.calls[c])
  {
    hide SlotInv, LoopInv, ResultInv;
    step := match s.calls[c]
      case Executing => Return(c, out(c))
      case ReturningSlot(_) => GiveSlot(c)
      case _ => Discard(c);
    if step.GiveSlot? {
      SlotHeld(cfg, s, c);
    }
    u := Apply(cfg, s, step);
    StepInv(cfg, s, step);
  }

  lemma SettleOne(cfg: Config, s: State, c: Call, out: Call -> Outcome) returns (steps: seq<Step>, t: State)
    requires Inv(cfg, s) && s.loop.Returned? && s.dying && c in s.calls && Live(s.calls[c])
    ensures Leads(Succ(cfg), s, steps, t) && AllSettling(out, steps) && Inv(cfg, t)
    ensures t.loop == s.loop && t.dying && c in t.calls
    ensures t.calls == s.calls[c := t.calls[c]] && t.calls[c].Discarded?
    decreases Distance(s.calls[c])
  {
    hide Inv, Leads, Enabled, Apply;
    var step, u := SettleStep(cfg, s, c, out);
    if step.Discard? {
      steps, t := [], u;
      Stays(Succ(cfg), u);
    } else {
      steps, t := SettleOne(cfg, u, c, out);
    }
    LeadsOne(Succ(cfg), s, step, steps, t);
    steps := [step] + steps;
  }

  lemma SettleAll(cfg: Config, s: State, out: Call -> Outcome) returns (steps: seq<Step>, t: State)
    requires Inv(cfg, s) && s.loop.Returned? && s.dying
    ensures Leads(Succ(cfg), s, steps, t) && AllSettling(out, steps) && t.loop == s.loop
    ensures forall c :: c in t.calls ==> !Live(t.calls[c])
    decreases |Having(s.calls, Live)|
  {
    hide Inv, Leads;
    if Having(s.calls, Live) == {} {
      steps, t := [], s;
      Stays(Succ(cfg), s);
      assert forall c :: c in t.calls && Live(t.calls[c]) ==> c in Having(t.calls, Live);
    } else {
      var c :| c in Having(s.calls, Live);
      var a, u := SettleOne(cfg, s, c, out);
      HavingUpdate(s.calls, c, u.calls[c], Live);
      var b;
      b, t := SettleAll(cfg, u, out);
      LeadsOn(Succ(cfg), s, a, u, b, t);
      steps := a + b;
    }
  }

  /**
   No value is left over: from any reachable state after a Close, a Kill or the
   return of the loop, the loop and the started functions can run until every
   function has ended, and then every value returned is the result or has been
   closed once.
   */
  lemma CanAlwaysSettle(cfg: Config, before: seq<Step>, s: State, out: Call -> Outcome)
    returns (steps: seq<Step>, t: State)
    requires Leads(Succ(cfg), Init(cfg), before, s) && (Close in before || Kill in before || s.loop.Returned?)
    ensures Leads(Succ(cfg), s, steps, t) && AllSettling(out, steps)
    ensures t.loop.Returned? && t.loop.stage == TombDone
    ensures forall c :: Started(t, c) ==> t.calls[c].Received? || t.calls[c].Discarded?
    ensures forall c :: multiset(before + steps)[Return(c, Value)]
                     == Bit(t.endResult == Some(c)) + multiset(t.closes)[c]
  {
    hide Leads, Enabled, Apply;
    var a, u := CanAlwaysFinish(cfg, before, s, out);
    LeadsOn(Succ(cfg), Init(cfg), before, s, a, u);
    InitInv(cfg);
    LeadsInv(cfg, Init(cfg), before + a, u);
    var b;
    b, t := SettleAll(cfg, u, out);
    LeadsOn(Succ(cfg), s, a, u, b, t);
    steps := a + b;
    LeadsOn(Succ(cfg), Init(cfg), before, s, steps, t);
    forall c
      ensures multiset(before + steps)[Return(c, Value)] == Bit(t.endResult == Some(c)) + multiset(t.closes)[c]
    {
      ValuesConserved(cfg, before + steps, t, c);
    }
  }

  // ----- where the code and its comments differ

  /** No call of Start can be accepted any more: the loop has returned, or every slot has been abandoned. */
  ghost predicate Sealed(cfg: Config, s: State) {
    s.loop.Returned? || (Limited(cfg) && |Having(s.calls, Abandoned)| == cfg.maxParallel)
  }

  lemma NoHolder(cfg: Config, s: State, c: Call)
    requires SlotInv(cfg, s) && Limited(cfg) && |Having(s.calls, Abandoned)| == cfg.maxParallel
    ensures s.free == 0 && (c in s.calls ==> !Holds(s.calls[c]))
  {
    assert Having(s.calls, Holds) == {};
    assert c !in Having(s.calls, Holds);
  }

  lemma SealedStep(cfg: Config, s: State, step: Step, c: Call)
    requires Inv(cfg, s) && Sealed(cfg, s) && Enabled(cfg, s, step)
    ensures Sealed(cfg, Apply(cfg, s, step)) && (Started(Apply(cfg, s, step), c) ==> Started(s, c))
  {
    hide LoopInv, ResultInv, Having;
    var t := Apply(cfg, s, step);
    if !s.loop.Returned? {
      NoHolder(cfg, s, c);
      if step.Accept? {
        NoHolder(cfg, s, step.c);
      }
      SlotStep(cfg, s, step);
      AbandonedStays(cfg, s, step);
    }
  }

  lemma AbandonedStays(cfg: Config, s: State, step: Step)
    requires Enabled(cfg, s, step)
    ensures |Having(s.calls, Abandoned)| <= |Having(Apply(cfg, s, step).calls, Abandoned)|
  {
    hide Receive;
    CountSubset(Having(s.calls, Abandoned), Having(Apply(cfg, s, step).calls, Abandoned));
  }

  lemma {:induction false} StaysSealed(cfg: Config, s: State, steps: seq<Step>, t: State, c: Call)
    requires Inv(cfg, s) && Sealed(cfg, s) && Leads(Succ(cfg), s, steps, t)
    ensures Started(t, c) ==> Started(s, c)
    decreases |steps|
  {
    hide Inv, Sealed, Enabled, Apply, Started;
    if steps == [] {
    } else {
      SealedStep(cfg, s, steps[0], c);
      StepInv(cfg, s, steps[0]);
      StaysSealed(cfg, Apply(cfg, s, steps[0]), steps[1..], t, c);
    }
  }

  /** With the loop alive and a slot free, a call made now can be started. */
  lemma StartableNow(cfg: Config, s: State, c: Call) returns (steps: seq<Step>, t: State)
    requires s.loop.Looping? && c !in s.calls && (Limited(cfg) ==> s.free > 0)
    ensures Leads(Succ(cfg), s, steps, t) && Started(t, c)
  {
    var s1 := Apply(cfg, s, CallStart(c));
    var s2 := if Limited(cfg) then Apply(cfg, s1, TakeSlot(c)) else s1;
    t := Apply(cfg, s2, Accept(c));
    Stays(Succ(cfg), t);
    LeadsOne(Succ(cfg), s2, Accept(c), [], t);
    steps := [Accept(c)] + [];
    if Limited(cfg) {
      LeadsOne(Succ(cfg), s1, TakeSlot(c), steps, t);
      steps := [TakeSlot(c)] + steps;
    }
    LeadsOne(Succ(cfg), s, CallStart(c), steps, t);
    steps := [CallStart(c)] + steps;
  }

  /** A holder of a slot can give it back without ending the loop. */
  lemma FreeSlot(cfg: Config, s: State, c: Call) returns (steps: seq<Step>, t: State)
    requires Limited(cfg) && SlotInv(cfg, s) && s.loop.Looping? && c in s.calls && Holds(s.calls[c])
    ensures Leads(Succ(cfg), s, steps, t) && t.loop.Looping? && t.free > 0 && t.calls.Keys == s.calls.Keys
    decreases if s.calls[c].Offering? then 3 else Distance(s.calls[c])
  {
    hide SlotInv, Leads;
    var step := if s.calls[c].Offering? then Accept(c)
                else if s.calls[c].Executing? then Return(c, Value) else GiveSlot(c);
    if step.GiveSlot? {
      SlotHeld(cfg, s, c);
    }
    var u := Apply(cfg, s, step);
    SlotStep(cfg, s, step);
    if step.GiveSlot? {
      steps, t := [], u;
      Stays(Succ(cfg), u);
    } else {
      steps, t := FreeSlot(cfg, u, c);
    }
    LeadsOne(Succ(cfg), s, step, steps, t);
    steps := [step] + steps;
  }

  lemma SomeHolder(cfg: Config, s: State) returns (c: Call)
    requires SlotInv(cfg, s) && Limited(cfg) && s.free == 0 && |Having(s.calls, Abandoned)| != cfg.maxParallel
    ensures c in s.calls && Holds(s.calls[c])
  {
    c :| c in Having(s.calls, Holds);
  }

  lemma Startable(cfg: Config, s: State, c: Call) returns (steps: seq<Step>, t: State)
    requires Inv(cfg, s) && !Sealed(cfg, s) && c !in s.calls
    ensures Leads(Succ(cfg), s, steps, t) && Started(t, c)
  {
    hide LoopInv, ResultInv, Leads;
    var a, u := [], s;
    Stays(Succ(cfg), s);
    if Limited(cfg) && s.free == 0 {
      var h := SomeHolder(cfg, s);
      a, u := FreeSlot(cfg, s, h);
    }
    steps, t := StartableNow(cfg, u, c);
    LeadsOn(Succ(cfg), s, a, u, steps, t);
    steps := a + steps;
  }

  /**
   Whether a call of Start made in a reachable state can still have its
   function started, closed Try or not: exactly if the loop has not returned
   and not every slot has been abandoned.
   */
  lemma StartableIff(cfg: Config, before: seq<Step>, s: State, c: Call)
    requires Leads(Succ(cfg), Init(cfg), before, s) && c !in s.calls
    ensures !Sealed(cfg, s) <==> exists steps, t :: Leads(Succ(cfg), s, steps, t) && Started(t, c)
  {
    InitInv(cfg);
    LeadsInv(cfg, Init(cfg), before, s);
    if Sealed(cfg, s) {
      forall steps, t | Leads(Succ(cfg), s, steps, t)
        ensures !Started(t, c)
      {
        StaysSealed(cfg, s, steps, t, c);
      }
    } else {
      var steps, t := Startable(cfg, s, c);
    }
  }

  /** A closed Try on which a call of Start made after Close has its function started. */
  lemma StartedAfterClose(cfg: Config) returns (steps: seq<Step>, s: State, after: seq<Step>, t: State)
    ensures Leads(Succ(cfg), Init(cfg), steps, s) && s.closed && 0 !in s.calls
    ensures Leads(Succ(cfg), s, after, t) && Started(t, 0)
  {
    s := Apply(cfg, Init(cfg), Close);
    Stays(Succ(cfg), s);
    LeadsOne(Succ(cfg), Init(cfg), Close, [], s);
    steps := [Close] + [];
    after, t := StartableNow(cfg, s, 0);
  }

  /** Closing a Try that started nothing gives no value and a nil error, not ErrStopped. */
  lemma ClosedUnused(cfg: Config, out: Call -> Outcome) returns (steps: seq<Step>, s: State)
    ensures Leads(Succ(cfg), Init(cfg), steps, s) && Close in steps
    ensures s.loop.Returned? && s.loop.stage == TombDone && s.calls == map[]
    ensures s.endResult == None && s.reason == None
  {
    var s1 := Apply(cfg, Init(cfg), Close);
    var s2 := Apply(cfg, s1, SeeClose);
    steps, s := Finish(cfg, s2, out);
    LeadsOne(Succ(cfg), s1, SeeClose, steps, s);
    steps := [SeeClose] + steps;
    LeadsOne(Succ(cfg), Init(cfg), Close, steps, s);
    steps := [Close] + steps;
    InitInv(cfg);
    LeadsInv(cfg, Init(cfg), steps, s);
    LeadsCallInv(cfg, Init(cfg), steps, s, multiset{}, 0, Value);
  }
}
