/**
 What the calls of fslock/fslock.go do, read off the steps of a run: the order
 in which a handle makes its system calls, what Lock and Unlock return, and
 which handles hold a lock.
 */
module FsLockCalls {
  import opened Options
  import opened LockNames
  import opened Runs
  import opened FsLock

  // ----- one handle's call

  predicate BeginsCall(step: Step) {
    step.NewLock? || step.CallLock? || step.CallUnlock?
  }

  /** The steps of h since its last call of Lock or Unlock, that call included. */
  function Segment(steps: seq<Step>, h: Id): seq<Step> {
    if steps == [] then []
    else
      var before, last := steps[..|steps| - 1], steps[|steps| - 1];
      if last.h != h then Segment(before, h) else After(Segment(before, h), last)
  }

  function After(seg: seq<Step>, step: Step): seq<Step> {
    if BeginsCall(step) then [step] else seg + [step]
  }

  function Last(seg: seq<Step>): Step
    requires seg != []
  {
    seg[|seg| - 1]
  }

  /** A call of Lock that has not made its acquiring rename. */
  predicate InLock(h: Id, seg: seq<Step>) {
    seg != [] && seg[0].CallLock? && seg[0].h == h && RenameIn(h) !in seg
  }

  predicate Acquiring(h: Id, seg: seq<Step>, msg: string) {
    InLock(h, seg) && seg[0].msg == msg
  }

  /** A call of Unlock that has made its releasing rename. */
  predicate Releasing(h: Id, seg: seq<Step>) {
    |seg| >= 3 && seg[..3] == [CallUnlock(h), Check(h), RenameOut(h)]
  }

  predicate PartOfRemoveAll(h: Id, step: Step) {
    step == RemoveHeld(h) || step == RemoveMessage(h) || step == RemoveDir(h)
  }

  /** How a handle came to where it is in acquire and the loop around it. */
  ghost predicate AcquireFlow(h: Id, pc: Pc, seg: seq<Step>)
    requires seg != []
  {
    match pc
    case Statting(m) => Acquiring(h, seg, m) && (Last(seg) == CallLock(h, m) || Last(seg) == GoOn(h))
    case MakingTemp(m) => Acquiring(h, seg, m) && Last(seg) == Stat(h)
    case CreatingHeld(x, m) => Acquiring(h, seg, m) && Last(seg) == MakeTemp(h, x)
    case WritingHeld(_, m) => Acquiring(h, seg, m) && Last(seg) == CreateHeld(h)
    case CreatingMessage(_, m) => Acquiring(h, seg, m) && Last(seg) == WriteHeld(h) && m != ""
    case WritingMessage(_, m) => Acquiring(h, seg, m) && Last(seg) == CreateMessage(h) && m != ""
    case RenamingIn(_, m) => Acquiring(h, seg, m) && Last(seg) == if m == "" then WriteHeld(h) else WriteMessage(h)
    case Cleaning(_, m) => Acquiring(h, seg, m) && (Last(seg) == Fault(h) || PartOfRemoveAll(h, Last(seg)))
    case Deciding(m) => Acquiring(h, seg, m) && (Last(seg) == Stat(h) || Last(seg) == RemoveEnds(h))
    case Idle(Locked) => InLock(h, seg[..|seg| - 1]) && Last(seg) == RenameIn(h)
    case Idle(LockFailed) => InLock(h, seg) && (Last(seg) == Fault(h) || Last(seg) == GiveUp(h))
    case _ => true
  }

  /** How a handle came to where it is in Unlock, or to be idle or gone. */
  ghost predicate UnlockFlow(h: Id, pc: Pc, seg: seq<Step>)
    requires seg != []
  {
    match pc
    case Checking => seg == [CallUnlock(h)]
    case RenamingOut => seg == [CallUnlock(h), Check(h)]
    case Clearing => Releasing(h, seg) && (Last(seg) == RenameOut(h) || PartOfRemoveAll(h, Last(seg)))
    case Idle(NotHeld) => seg == [CallUnlock(h), Check(h)] || seg == [CallUnlock(h), Fault(h)]
    case Idle(Unlocked) => Releasing(h, seg) && Last(seg) == RemoveEnds(h)
    case Idle(UnlockFailed) =>
      seg == [CallUnlock(h), Check(h), Fault(h)] || (Releasing(h, seg) && Last(seg) == RemoveEnds(h))
    case Idle(NoCall) => |seg| == 1 && seg[0].NewLock?
    case Crashed => Last(seg) == Crash(h)
    case _ => true
  }

  ghost predicate Flow(h: Id, pc: Pc, seg: seq<Step>) {
    seg != [] && AcquireFlow(h, pc, seg) && UnlockFlow(h, pc, seg)
  }

  lemma FlowCall(fs: map<string, Dir>, c: Client, step: Step, h: Id)
    requires EnabledFor(fs, c, step) && step.h == h && BeginsCall(step)
    ensures Flow(h, ClientAfter(fs, c, step).pc, [step])
  {
  }

  /** A step within acquire. */
  lemma AcquireStep(fs: map<string, Dir>, c: Client, step: Step, h: Id, seg: seq<Step>)
    requires EnabledFor(fs, c, step) && step.h == h && !BeginsCall(step) && Flow(h, c.pc, seg)
    requires !c.pc.Checking? && !c.pc.RenamingOut? && !c.pc.Clearing? && !step.Crash?
    ensures Flow(h, ClientAfter(fs, c, step).pc, seg + [step])
  {
    hide TempName, ReleaseName, Vacant;
    assert (seg + [step])[..|seg|] == seg;
  }

  /** A step within Unlock. */
  lemma UnlockStep(fs: map<string, Dir>, c: Client, step: Step, h: Id, seg: seq<Step>)
    requires EnabledFor(fs, c, step) && step.h == h && !BeginsCall(step) && Flow(h, c.pc, seg)
    requires c.pc.Checking? || c.pc.RenamingOut? || c.pc.Clearing?
    ensures Flow(h, ClientAfter(fs, c, step).pc, seg + [step])
  {
    hide TempName, ReleaseName, Vacant;
    if Releasing(h, seg) {
      assert (seg + [step])[..3] == seg[..3];
    }
  }

  lemma FlowStep(fs: map<string, Dir>, c: Client, step: Step, h: Id, seg: seq<Step>)
    requires EnabledFor(fs, c, step) && step.h == h && Flow(h, c.pc, seg)
    ensures Flow(h, ClientAfter(fs, c, step).pc, After(seg, step))
  {
    if BeginsCall(step) {
      FlowCall(fs, c, step, h);
    } else if c.pc.Checking? || c.pc.RenamingOut? || c.pc.Clearing? {
      UnlockStep(fs, c, step, h, seg);
    } else if !step.Crash? {
      AcquireStep(fs, c, step, h, seg);
    }
  }

  /**
   In every reachable state a handle has made exactly the steps, in the order,
   that lead to where it is in its call, and Lock and Unlock return what those
   steps say: Locked after an acquiring rename of this call, Unlocked after a
   releasing one, NotHeld straight after the check.
   */
  lemma {:induction false} CallsFollow(steps: seq<Step>, s: State, h: Id)
    requires Leads(Succ, Init(), steps, s)
    ensures h in s.clients ==> Flow(h, s.clients[h].pc, Segment(steps, h))
    decreases |steps|
  {
    hide EnabledFor, ClientAfter, FsAfter, AcquireFlow, UnlockFlow;
    if steps == [] {
    } else {
      var before, last := steps[..|steps| - 1], steps[|steps| - 1];
      var mid := BeforeLast(Succ, Init(), steps, s);
      CallsFollow(before, mid, h);
      if last.h == h {
        if last.NewLock? {
          NewFlow(h, last);
        } else {
          FlowStep(mid.fs, mid.clients[h], last, h, Segment(before, h));
        }
      }
    }
  }

  lemma NewFlow(h: Id, step: Step)
    requires step.NewLock? && step.h == h
    ensures Flow(h, Idle(NoCall), [step])
  {
  }

  /**
   What Lock and Unlock returned is true. Nil from Lock: this call made the
   acquiring rename, and the lock is held. Nil from Unlock: this call made the
   releasing rename, after a check, and the lock is not held. ErrLockNotHeld:
   this call renamed nothing.
   */
  lemma ReturnsTrue(steps: seq<Step>, s: State, h: Id)
    requires Leads(Succ, Init(), steps, s) && h in s.clients
    ensures var lock, pc, seg := s.clients[h].lock, s.clients[h].pc, Segment(steps, h);
            && seg != []
            && (pc == Idle(Locked) ==> IsLockHeld(s, lock) && InLock(h, seg[..|seg| - 1]) && Last(seg) == RenameIn(h))
            && (pc == Idle(Unlocked) ==> !IsLockHeld(s, lock) && Releasing(h, seg))
            && (pc == Idle(NotHeld) ==> |seg| == 2 && seg[0] == CallUnlock(h) && RenameOut(h) !in seg)
            && (pc == Idle(LockFailed) ==> InLock(h, seg))
  {
    Reached(steps, s);
    assert ClientInv(s.fs, s.clients[h]);
    QueriesAgree(steps, s, h);
    CallsFollow(steps, s, h);
  }

  // ----- what the checks find

  /** The check of Unlock passes exactly if this handle holds the lock; else Unlock returns ErrLockNotHeld. */
  lemma CheckAnswers(steps: seq<Step>, s: State, h: Id)
    requires Leads(Succ, Init(), steps, s) && Enabled(s, Check(h))
    ensures Apply(s, Check(h)).fs == s.fs
    ensures Apply(s, Check(h)).clients[h].pc
         == if Holds(s, h, s.clients[h].lock.name) then RenamingOut else Idle(NotHeld)
  {
    QueriesAgree(steps, s, h);
  }

  /** acquire goes on to make a temporary directory exactly if nobody, itself included, holds the lock. */
  lemma StatAnswers(steps: seq<Step>, s: State, h: Id)
    requires Leads(Succ, Init(), steps, s) && Enabled(s, Stat(h))
    ensures Apply(s, Stat(h)).clients[h].pc
         == if exists g :: Holds(s, g, s.clients[h].lock.name) then Deciding(s.clients[h].pc.msg)
            else MakingTemp(s.clients[h].pc.msg)
  {
    Reached(steps, s);
    assert ClientInv(s.fs, s.clients[h]);
    AtomicPublication(steps, s, s.clients[h].lock.name);
  }

  /** Unlock returns nil exactly if nothing of the released directory is left. */
  lemma RemovalAnswers(s: State, h: Id)
    requires Enabled(s, RemoveEnds(h)) && s.clients[h].pc.Clearing?
    ensures Apply(s, RemoveEnds(h)).clients[h].pc
         == Idle(if ReleaseName(s.clients[h].lock.name, s.clients[h].lock.nonce) in s.fs then UnlockFailed else Unlocked)
  {
  }

  /** A handle whose rename fails can remove its temporary directory, and is then to decide whether to go on. */
  lemma LoserCleansUp(s: State, h: Id) returns (steps: seq<Step>, t: State)
    requires h in s.clients && s.clients[h].pc.RenamingIn? && Temp(s.clients[h]) in s.fs
    ensures Leads(Succ, s, steps, t)
    ensures t.fs == s.fs - {Temp(s.clients[h])}
    ensures t.clients == s.clients[h := s.clients[h].(pc := Deciding(s.clients[h].pc.msg))]
  {
    hide TempName, Leads;
    Stays(Succ, s);
    steps, t := Take(Succ, s, [], s, Fault(h));
    steps, t := LoserEmpties(s, steps, t, h);
    steps, t := Take(Succ, s, steps, t, RemoveDir(h));
    steps, t := Take(Succ, s, steps, t, RemoveEnds(h));
  }

  lemma LoserEmpties(s: State, a: seq<Step>, t: State, h: Id) returns (b: seq<Step>, u: State)
    requires Leads(Succ, s, a, t) && h in t.clients && t.clients[h].pc.Cleaning? && Temp(t.clients[h]) in t.fs
    ensures Leads(Succ, s, b, u) && u == t.(fs := t.fs[Temp(t.clients[h]) := Dir(None, None)])
  {
    hide TempName, Leads;
    b, u := Take(Succ, s, a, t, RemoveHeld(h));
    b, u := Take(Succ, s, b, u, RemoveMessage(h));
  }

  // ----- who holds a lock

  /** The lock a handle was made for. */
  function LockOf(steps: seq<Step>, h: Id): Option<Lock> {
    if steps == [] then None
    else
      var last := steps[|steps| - 1];
      if last.NewLock? && last.h == h then Some(Lock(last.name, last.nonce)) else LockOf(steps[..|steps| - 1], h)
  }

  /** The message given to the last call of Lock. */
  function MessageGiven(steps: seq<Step>, h: Id): string {
    if steps == [] then ""
    else
      var last := steps[|steps| - 1];
      if last.CallLock? && last.h == h then last.msg else MessageGiven(steps[..|steps| - 1], h)
  }

  /** The message of the handle's acquiring rename, if no releasing one came after it. */
  function HeldSince(steps: seq<Step>, h: Id): Option<string> {
    if steps == [] then None
    else
      var before, last := steps[..|steps| - 1], steps[|steps| - 1];
      if last == RenameIn(h) then Some(MessageGiven(before, h))
      else if last == RenameOut(h) then None
      else HeldSince(before, h)
  }

  predicate HoldsIn(steps: seq<Step>, h: Id, name: string) {
    LockOf(steps, h).Some? && LockOf(steps, h).value.name == name && HeldSince(steps, h).Some?
  }

  /** The message a call of Lock works with. */
  ghost predicate Carries(pc: Pc, msg: string) {
    match pc
    case Statting(m) => m == msg
    case MakingTemp(m) => m == msg
    case CreatingHeld(_, m) => m == msg
    case WritingHeld(_, m) => m == msg
    case CreatingMessage(_, m) => m == msg
    case WritingMessage(_, m) => m == msg
    case RenamingIn(_, m) => m == msg
    case Cleaning(_, m) => m == msg
    case Deciding(m) => m == msg
    case _ => true
  }

  lemma HoldingStep(fs: map<string, Dir>, c: Client, step: Step, msg: string)
    requires EnabledFor(fs, c, step) && Carries(c.pc, msg)
    ensures var d := ClientAfter(fs, c, step);
            && d.lock == c.lock
            && Carries(d.pc, if step.CallLock? then step.msg else msg)
            && d.holding == if step.RenameIn? then Some(msg) else if step.RenameOut? then None else c.holding
  {
  }

  /** Handles, their locks and what they hold are what the steps say. */
  lemma {:induction false} HoldersAreSteps(steps: seq<Step>, s: State, h: Id)
    requires Leads(Succ, Init(), steps, s)
    ensures h in s.clients <==> LockOf(steps, h).Some?
    ensures h !in s.clients ==> HeldSince(steps, h) == None
    ensures h in s.clients ==>
              && s.clients[h].lock == LockOf(steps, h).value && s.clients[h].holding == HeldSince(steps, h)
              && Carries(s.clients[h].pc, MessageGiven(steps, h))
    decreases |steps|
  {
    hide EnabledFor, ClientAfter, FsAfter, Carries;
    if steps == [] {
    } else {
      var before, last := steps[..|steps| - 1], steps[|steps| - 1];
      var mid := BeforeLast(Succ, Init(), steps, s);
      HoldersAreSteps(before, mid, h);
      if last.h == h {
        if last.NewLock? {
          NewCarries(MessageGiven(steps, h));
        } else {
          HoldingStep(mid.fs, mid.clients[h], last, MessageGiven(before, h));
        }
      }
    }
  }

  lemma NewCarries(msg: string)
    ensures Carries(Idle(NoCall), msg)
  {
  }

  /**
   Mutual exclusion, read off the steps: over every interleaving, failure and
   crash, at most one handle for a name has made its acquiring rename and not
   yet its releasing one.
   */
  lemma OneHolder(steps: seq<Step>, s: State, name: string, g: Id, h: Id)
    requires Leads(Succ, Init(), steps, s) && HoldsIn(steps, g, name) && HoldsIn(steps, h, name)
    ensures g == h
  {
    HoldersAreSteps(steps, s, g);
    HoldersAreSteps(steps, s, h);
    MutualExclusion(steps, s, name, g, h);
  }
}
