/**
 voyeur/value.go as a transition system: a shared value, calls of Set and the
 two Close methods, and watchers in Next. The read-write lock is that of Go:
 one writer at a time announces itself, from then on no watcher gets a read
 lock, and its exclusive section, a single step, runs when no watcher holds
 one. Each watcher has at most one Next under way.
 */
module Voyeur {
  import opened Options
  import opened Counting
  import opened Runs

  datatype Val = Nil | Val(n: int)

  type WatcherId = nat
  type CallId = nat

  datatype Op = Set(val: Val) | CloseValue | CloseWatcher(w: WatcherId)

  /** A call of Set or Close: up to its exclusive section, before its Broadcast, or back. */
  datatype Call = Requested(op: Op) | Broadcasting | Done

  datatype Pc =
    | Idle(result: bool)
    | Wanting                                    // before the read lock
    | Starting                                   // read lock held, condition variable not yet looked at
    | Initialising                               // up to the exclusive section between the two read locks
    | Wanting2
    | Checking                                   // read lock held, at the top of the loop
    | Waiting(locked: bool, signalled: bool)     // on the condition variable's list

  /** `turns` counts the checks of the current Next and `base` the broadcasts made before it. */
  datatype Watcher = Watcher(pc: Pc, version: nat, current: Val, closed: bool, turns: nat, base: nat)

  /** Who has announced itself in Lock and has not left its exclusive section. */
  datatype Writer = NoWriter | ByCall(o: CallId) | ByWatcher(w: WatcherId)

  datatype State = State(
    val: Val,
    version: nat,
    closed: bool,
    ready: bool,                                 // the condition variable has its lock
    sets: seq<Val>,                              // every value stored, in order
    broadcasts: nat,
    writer: Writer,
    calls: map<CallId, Call>,
    watchers: map<WatcherId, Watcher>)

  datatype Step =
    | Watch(w: WatcherId)
    | Next(w: WatcherId)
    | RLock(w: WatcherId)
    | NeedsInit(w: WatcherId)
    | InitLock(w: WatcherId)
    | DoInit(w: WatcherId)
    | Check(w: WatcherId)
    | Park(w: WatcherId)
    | Wake(w: WatcherId)
    | Request(o: CallId, op: Op)
    | Lock(o: CallId)
    | Mutate(o: CallId)
    | Broadcast(o: CallId)

  /** The zero Value. */
  function Zero(): State {
    State(Nil, 0, false, false, [], 0, NoWriter, map[], map[])
  }

  function NewValue(initial: Val): State {
    var v := Zero().(ready := true);
    if initial == Nil then v else v.(val := initial, version := 1, sets := [initial])
  }

  predicate HoldsLock(w: Watcher) {
    w.pc.Starting? || w.pc.Checking? || (w.pc.Waiting? && w.pc.locked)
  }

  predicate Exclusive(s: State) {
    forall w :: w in s.watchers ==> !HoldsLock(s.watchers[w])
  }

  predicate Enabled(s: State, step: Step) {
    match step
    case Watch(w) => w !in s.watchers
    case Next(w) => w in s.watchers && s.watchers[w].pc.Idle?
    case RLock(w) =>
      w in s.watchers && (s.watchers[w].pc.Wanting? || s.watchers[w].pc.Wanting2?) && s.writer == NoWriter
    case NeedsInit(w) => w in s.watchers && s.watchers[w].pc.Starting?
    case InitLock(w) => w in s.watchers && s.watchers[w].pc.Initialising? && s.writer == NoWriter
    case DoInit(w) => w in s.watchers && s.writer == ByWatcher(w) && Exclusive(s)
    case Check(w) => w in s.watchers && s.watchers[w].pc.Checking?
    case Park(w) => w in s.watchers && s.watchers[w].pc.Waiting? && s.watchers[w].pc.locked
    case Wake(w) => w in s.watchers && s.watchers[w].pc == Waiting(false, true) && s.writer == NoWriter
    case Request(o, op) => o !in s.calls && (op.CloseWatcher? ==> op.w in s.watchers)
    case Lock(o) => o in s.calls && s.calls[o].Requested? && s.writer == NoWriter
    case Mutate(o) =>
      && o in s.calls && s.calls[o].Requested? && s.writer == ByCall(o) && Exclusive(s)
      && (s.calls[o].op.CloseWatcher? ==> s.calls[o].op.w in s.watchers)
    case Broadcast(o) => o in s.calls && s.calls[o].Broadcasting?
  }

  function Goto(s: State, w: WatcherId, pc: Pc): State
    requires w in s.watchers
  {
    s.(watchers := s.watchers[w := s.watchers[w].(pc := pc)])
  }

  /** One turn of the loop in Next. */
  function Turn(s: State, w: Watcher): Watcher {
    var w' := w.(turns := w.turns + 1);
    if w.version != s.version then
      w'.(pc := Idle(true), version := s.version, current := s.val)
    else if s.closed || w.closed then w'.(pc := Idle(false))
    else w'.(pc := Waiting(true, false))
  }

  function Signal(w: Watcher): Watcher {
    if w.pc.Waiting? then w.(pc := Waiting(w.pc.locked, true)) else w
  }

  function Section(s: State, op: Op): State
    requires op.CloseWatcher? ==> op.w in s.watchers
  {
    match op
    case Set(val) => s.(val := val, version := s.version + 1, sets := s.sets + [val])
    case CloseValue => s.(closed := true)
    case CloseWatcher(w) => s.(watchers := s.watchers[w := s.watchers[w].(closed := true)])
  }

  function Apply(s: State, step: Step): State
    requires Enabled(s, step)
  {
    match step
    case Watch(w) => s.(watchers := s.watchers[w := Watcher(Idle(false), 0, Nil, false, 0, s.broadcasts)])
    case Next(w) => s.(watchers := s.watchers[w := s.watchers[w].(pc := Wanting, turns := 0, base := s.broadcasts)])
    case RLock(w) => Goto(s, w, if s.watchers[w].pc.Wanting? then Starting else Checking)
    case NeedsInit(w) => Goto(s, w, if s.ready then Checking else Initialising)
    case InitLock(w) => s.(writer := ByWatcher(w))
    case DoInit(w) => Goto(s.(ready := true, writer := NoWriter), w, Wanting2)
    case Check(w) => s.(watchers := s.watchers[w := Turn(s, s.watchers[w])])
    case Park(w) => Goto(s, w, Waiting(false, s.watchers[w].pc.signalled))
    case Wake(w) => Goto(s, w, Checking)
    case Request(o, op) => s.(calls := s.calls[o := Requested(op)])
    case Lock(o) => s.(writer := ByCall(o))
    case Mutate(o) =>
      Section(s, s.calls[o].op).(calls := s.calls[o := Broadcasting], ready := true, writer := NoWriter)
    case Broadcast(o) =>
      s.(calls := s.calls[o := Done], broadcasts := s.broadcasts + 1,
         watchers := map w | w in s.watchers :: Signal(s.watchers[w]))
  }

  /** The transition system. */
  function Succ(s: State, step: Step): Option<State> {
    if Enabled(s, step) then Some(Apply(s, step)) else None
  }

  predicate Initial(s: State) {
    s == Zero() || s == NewValue(s.val)
  }

  // ----- the invariant

  /** There is something for Next to return for. */
  predicate HasNews(s: State, w: Watcher) {
    w.version != s.version || s.closed || w.closed
  }

  ghost predicate Pending(s: State) {
    exists o :: o in s.calls && s.calls[o].Broadcasting?
  }

  ghost predicate WakeInv(s: State, w: Watcher) {
    w.pc.Waiting? && !w.pc.signalled && HasNews(s, w) ==> !w.pc.locked && Pending(s)
  }

  /** The value numbered by a version in the history of Set. */
  function Numbered(sets: seq<Val>, version: nat): Val
    requires version <= |sets|
  {
    if version == 0 then Nil else sets[version - 1]
  }

  ghost predicate HistoryInv(sets: seq<Val>, version: nat, current: Val) {
    version <= |sets| && current == Numbered(sets, version)
  }

  /** Every turn after the first was brought about by a broadcast made during the call. */
  ghost predicate TurnInv(broadcasts: nat, ready: bool, w: Watcher) {
    && w.base <= broadcasts
    && match w.pc
       case Wanting | Starting | Initialising => w.turns == 0
       case Wanting2 => w.turns == 0 && ready
       case Checking => w.turns <= broadcasts - w.base && ready
       case Waiting(_, signalled) => w.turns + Bit(signalled) <= 1 + broadcasts - w.base && ready
       case Idle(_) => w.turns <= 1 + broadcasts - w.base
  }

  ghost predicate WatcherInv(s: State, w: Watcher) {
    WakeInv(s, w) && HistoryInv(s.sets, w.version, w.current) && TurnInv(s.broadcasts, s.ready, w)
  }

  ghost predicate ValueInv(s: State) {
    && s.version == |s.sets| && s.val == Numbered(s.sets, s.version)
  }

  /** Who is in Lock, and whom calls are about. */
  ghost predicate WriterInv(s: State) {
    && (s.writer.ByCall? ==> s.writer.o in s.calls && s.calls[s.writer.o].Requested?)
    && (s.writer.ByWatcher? ==> s.writer.w in s.watchers && s.watchers[s.writer.w].pc.Initialising?)
    && forall o :: o in s.calls && s.calls[o].Requested? && s.calls[o].op.CloseWatcher? ==> s.calls[o].op.w in s.watchers
  }

  ghost predicate Inv(s: State) {
    ValueInv(s) && WriterInv(s) && forall w :: w in s.watchers ==> WatcherInv(s, s.watchers[w])
  }

  lemma WakeStep(s: State, step: Step, w: WatcherId)
    requires Enabled(s, step) && w in s.watchers && WakeInv(s, s.watchers[w])
    ensures var t := Apply(s, step); WakeInv(t, t.watchers[w])
  {
    var t := Apply(s, step);
    if Pending(s) && !step.Broadcast? {
      var o :| o in s.calls && s.calls[o].Broadcasting?;
      assert o in t.calls && t.calls[o].Broadcasting?;
    }
    if step.Mutate? {
      assert step.o in t.calls && t.calls[step.o].Broadcasting?;
    }
  }

  /** One more value in the history, and a watcher given the latest. */
  lemma HistoryGrows(sets: seq<Val>, version: nat, current: Val, val: Val)
    requires HistoryInv(sets, version, current)
    ensures HistoryInv(sets + [val], version, current)
    ensures HistoryInv(sets, |sets|, Numbered(sets, |sets|))
  {
  }

  /** Only its own check gives a watcher a value, and only a Set adds to the history. */
  lemma HistoryKept(s: State, step: Step, w: WatcherId)
    requires Enabled(s, step) && w in s.watchers && step != Check(w)
    ensures var t := Apply(s, step);
            && w in t.watchers && t.watchers[w].version == s.watchers[w].version
            && t.watchers[w].current == s.watchers[w].current
            && (t.sets == s.sets || t.sets == s.sets + [t.val])
  {
  }

  lemma HistoryStep(s: State, step: Step, w: WatcherId)
    requires Enabled(s, step) && w in s.watchers && ValueInv(s)
    requires var v := s.watchers[w]; HistoryInv(s.sets, v.version, v.current)
    ensures var t := Apply(s, step); var v := t.watchers[w]; HistoryInv(t.sets, v.version, v.current)
  {
    var v := s.watchers[w];
    HistoryGrows(s.sets, v.version, v.current, Apply(s, step).val);
    assert v.version <= |s.sets|;
    hide HistoryInv;
    if step != Check(w) {
      HistoryKept(s, step, w);
      hide Apply, Enabled;
    }
  }

  lemma ValueStep(s: State, step: Step)
    requires Enabled(s, step) && ValueInv(s)
    ensures ValueInv(Apply(s, step))
    ensures s.watchers.Keys + (if step.Watch? then {step.w} else {}) == Apply(s, step).watchers.Keys
  {
  }

  /** A step that is not about w leaves its count of turns alone. */
  lemma TurnsKept(s: State, step: Step, w: WatcherId)
    requires Enabled(s, step) && w in s.watchers && (step.Mutate? || step.Broadcast? || step.Request? || step.Lock?)
    requires TurnInv(s.broadcasts, s.ready, s.watchers[w])
    ensures var t := Apply(s, step); TurnInv(t.broadcasts, t.ready, t.watchers[w])
  {
  }

  lemma TurnStep(s: State, step: Step, w: WatcherId)
    requires Enabled(s, step) && WriterInv(s) && w in s.watchers && TurnInv(s.broadcasts, s.ready, s.watchers[w])
    ensures var t := Apply(s, step); TurnInv(t.broadcasts, t.ready, t.watchers[w])
  {
    if step.Mutate? || step.Broadcast? || step.Request? || step.Lock? {
      TurnsKept(s, step, w);
      hide Apply, Enabled, TurnInv;
    } else {
      hide Section, Signal;
    }
  }

  lemma WriterStep(s: State, step: Step)
    requires Enabled(s, step) && WriterInv(s)
    ensures WriterInv(Apply(s, step))
  {
  }

  lemma StepInv(s: State, step: Step)
    requires Inv(s) && Enabled(s, step)
    ensures Inv(Apply(s, step))
  {
    hide WakeInv, HistoryInv, TurnInv, ValueInv, WriterInv;
    var t := Apply(s, step);
    ValueStep(s, step);
    WriterStep(s, step);
    forall w | w in s.watchers
      ensures WatcherInv(t, t.watchers[w])
    {
      WakeStep(s, step, w);
      HistoryStep(s, step, w);
      TurnStep(s, step, w);
    }
    if step.Watch? {
      NewWatcher(t, t.watchers[step.w]);
    }
  }

  lemma NewWatcher(s: State, w: Watcher)
    requires w == Watcher(Idle(false), 0, Nil, false, 0, s.broadcasts)
    ensures WatcherInv(s, w)
  {
  }

  lemma LeadsInv(s: State, steps: seq<Step>, t: State)
    requires Inv(s) && Leads(Succ, s, steps, t)
    ensures Inv(t)
  {
    hide Inv, Enabled, Apply;
    forall x, a | Inv(x) && Succ(x, a).Some?
      ensures Inv(Succ(x, a).value)
    {
      StepInv(x, a);
    }
    Invariant(Succ, Inv, s, steps, t);
  }

  lemma Reached(init: State, steps: seq<Step>, s: State)
    requires Initial(init) && Leads(Succ, init, steps, s)
    ensures Inv(s)
  {
    LeadsInv(init, steps, s);
  }

  // ----- every reachable state

  /** No lost wakeup: a watcher that waits although there is news is signalled, or a Broadcast is still to come. */
  lemma NoLostWakeup(init: State, steps: seq<Step>, s: State, w: WatcherId)
    requires Initial(init) && Leads(Succ, init, steps, s)
    requires w in s.watchers && s.watchers[w].pc.Waiting? && HasNews(s, s.watchers[w])
    ensures s.watchers[w].pc.signalled || (!s.watchers[w].pc.locked && Pending(s))
  {
    Reached(init, steps, s);
    assert WatcherInv(s, s.watchers[w]);
  }

  // ----- what the steps of a run say

  /** What call o was made for. */
  function OpOf(steps: seq<Step>, o: CallId): Option<Op> {
    if steps == [] then None
    else
      var last := steps[|steps| - 1];
      if last.Request? && last.o == o then Some(last.op) else OpOf(steps[..|steps| - 1], o)
  }

  /** What the last step's exclusive section was for. */
  function LastOp(steps: seq<Step>): Option<Op>
    requires steps != []
  {
    var last := steps[|steps| - 1];
    if last.Mutate? then OpOf(steps[..|steps| - 1], last.o) else None
  }

  /** The arguments of the calls of Set, in the order of their exclusive sections. */
  function Stored(steps: seq<Step>): seq<Val> {
    if steps == [] then []
    else
      var op := LastOp(steps);
      Stored(steps[..|steps| - 1]) + if op.Some? && op.value.Set? then [op.value.val] else []
  }

  /** The values a Value made with initial has had, in order. */
  function History(initial: Val, steps: seq<Step>): seq<Val> {
    (if initial == Nil then [] else [initial]) + Stored(steps)
  }

  /** Some exclusive section was that of a call for op. */
  predicate Performed(steps: seq<Step>, op: Op) {
    steps != [] && (LastOp(steps) == Some(op) || Performed(steps[..|steps| - 1], op))
  }

  predicate Initially(init: State, initial: Val) {
    init == NewValue(initial) || (initial == Nil && init == Zero())
  }

  lemma CallStep(s: State, step: Step, o: CallId)
    requires Enabled(s, step)
    ensures var t := Apply(s, step);
            && (o in t.calls && t.calls[o].Requested? ==>
                  if step.Request? && step.o == o then t.calls[o].op == step.op
                  else o in s.calls && t.calls[o] == s.calls[o])
  {
  }

  lemma {:induction false} CallsAreSteps(init: State, steps: seq<Step>, s: State, o: CallId)
    requires Initial(init) && Leads(Succ, init, steps, s)
    ensures o in s.calls && s.calls[o].Requested? ==> OpOf(steps, o) == Some(s.calls[o].op)
    decreases |steps|
  {
    hide Enabled, Apply;
    if steps == [] {
    } else {
      var mid := BeforeLast(Succ, init, steps, s);
      CallsAreSteps(init, steps[..|steps| - 1], mid, o);
      CallStep(mid, steps[|steps| - 1], o);
    }
  }

  /** What a step is the exclusive section of. */
  function SectionOf(s: State, step: Step): Option<Op>
    requires Enabled(s, step)
  {
    if step.Mutate? then Some(s.calls[step.o].op) else None
  }

  lemma SectionStep(s: State, step: Step, w: WatcherId)
    requires Enabled(s, step)
    ensures var t, op := Apply(s, step), SectionOf(s, step);
            && t.sets == s.sets + (if op.Some? && op.value.Set? then [op.value.val] else [])
            && (t.closed <==> s.closed || op == Some(CloseValue))
            && (IsClosed(t, w) <==> IsClosed(s, w) || op == Some(CloseWatcher(w)))
  {
    if step.Mutate? {
    } else {
      hide Section;
    }
  }

  predicate IsClosed(s: State, w: WatcherId) {
    w in s.watchers && s.watchers[w].closed
  }

  /** The history and the closed flags are what the calls of the run say. */
  lemma {:induction false} HistoryIsSteps(init: State, initial: Val, steps: seq<Step>, s: State, w: WatcherId)
    requires Initially(init, initial) && Leads(Succ, init, steps, s)
    ensures s.sets == History(initial, steps)
    ensures s.closed <==> Performed(steps, CloseValue)
    ensures IsClosed(s, w) <==> Performed(steps, CloseWatcher(w))
    decreases |steps|
  {
    hide Enabled, Apply;
    if steps == [] {
    } else {
      var before, last := steps[..|steps| - 1], steps[|steps| - 1];
      var mid := BeforeLast(Succ, init, steps, s);
      HistoryIsSteps(init, initial, before, mid, w);
      SectionStep(mid, last, w);
      if last.Mutate? {
        CallsAreSteps(init, before, mid, last.o);
        Requesting(mid, last.o);
      }
    }
  }

  lemma Requesting(s: State, o: CallId)
    requires Enabled(s, Mutate(o))
    ensures o in s.calls && s.calls[o].Requested?
  {
  }

  /** A watcher's value is the one its version numbers among the values set. */
  lemma WatcherHistory(init: State, initial: Val, steps: seq<Step>, s: State, w: WatcherId)
    requires Initially(init, initial) && Leads(Succ, init, steps, s) && w in s.watchers
    ensures var h := History(initial, steps);
            s.watchers[w].version <= |h| && s.watchers[w].current == Numbered(h, s.watchers[w].version)
  {
    Reached(init, steps, s);
    HistoryIsSteps(init, initial, steps, s, w);
    assert WatcherInv(s, s.watchers[w]);
  }

  /** What the check of a Next that returns has found. */
  lemma NextReturns(init: State, initial: Val, steps: seq<Step>, s: State, w: WatcherId)
    requires Initially(init, initial) && Leads(Succ, init, steps, s) && Enabled(s, Check(w))
    ensures var before, after, h := s.watchers[w], Apply(s, Check(w)).watchers[w], History(initial, steps);
            var closed := Performed(steps, CloseValue) || Performed(steps, CloseWatcher(w));
            match after.pc
            case Idle(true) => h != [] && after.version == |h| > before.version && after.current == h[|h| - 1]
            case Idle(false) =>
              closed && after.version == before.version == |h| && after.current == before.current == Numbered(h, |h|)
            case Waiting(_, _) => before.version == |h| && !closed
            case _ => false
  {
    Reached(init, steps, s);
    HistoryIsSteps(init, initial, steps, s, w);
    assert WatcherInv(s, s.watchers[w]);
  }

  lemma {:induction false} VersionGrows(s: State, steps: seq<Step>, t: State, w: WatcherId)
    requires Inv(s) && Leads(Succ, s, steps, t) && w in s.watchers
    ensures w in t.watchers && s.watchers[w].version <= t.watchers[w].version
    decreases |steps|
  {
    hide Enabled, Apply, Inv;
    if steps == [] {
    } else {
      var u := Succ(s, steps[0]).value;
      StepInv(s, steps[0]);
      VersionStep(s, steps[0], w);
      VersionGrows(u, steps[1..], t, w);
    }
  }

  lemma VersionStep(s: State, step: Step, w: WatcherId)
    requires Inv(s) && Enabled(s, step) && w in s.watchers
    ensures w in Apply(s, step).watchers && s.watchers[w].version <= Apply(s, step).watchers[w].version
  {
    assert WatcherInv(s, s.watchers[w]);
    if step != Check(w) {
      HistoryKept(s, step, w);
    }
  }

  /** Each true Next gives a later value than the one before it, whatever happens in between. */
  lemma TrueNextsIncrease(init: State, initial: Val, a: seq<Step>, s: State, b: seq<Step>, t: State, w: WatcherId)
    requires Initially(init, initial) && Leads(Succ, init, a, s) && Enabled(s, Check(w))
    requires Apply(s, Check(w)).watchers[w].pc == Idle(true)
    requires Leads(Succ, Apply(s, Check(w)), b, t) && Enabled(t, Check(w))
    requires Apply(t, Check(w)).watchers[w].pc == Idle(true)
    ensures Apply(s, Check(w)).watchers[w].version < Apply(t, Check(w)).watchers[w].version
  {
    var c, u := Take(Succ, init, a, s, Check(w));
    Reached(init, c, u);
    VersionGrows(u, b, t, w);
    LeadsOn(Succ, init, c, u, b, t);
    NextReturns(init, initial, c + b, t, w);
  }

  /** A Broadcast has come since w's last check. */
  predicate Roused(steps: seq<Step>, w: WatcherId) {
    steps != [] && steps[|steps| - 1] != Check(w)
    && (steps[|steps| - 1].Broadcast? || Roused(steps[..|steps| - 1], w))
  }

  lemma SignalStep(s: State, step: Step, w: WatcherId)
    requires Enabled(s, step) && w in Apply(s, step).watchers && Apply(s, step).watchers[w].pc.Waiting?
    ensures var pc := Apply(s, step).watchers[w].pc;
            if step == Check(w) then !pc.signalled
            else w in s.watchers && s.watchers[w].pc.Waiting? && pc.signalled == (s.watchers[w].pc.signalled || step.Broadcast?)
  {
  }

  /** A waiting watcher is signalled exactly if a Broadcast has come since it began to wait. */
  lemma {:induction false} SignalsAreBroadcasts(init: State, steps: seq<Step>, s: State, w: WatcherId)
    requires Initial(init) && Leads(Succ, init, steps, s) && w in s.watchers && s.watchers[w].pc.Waiting?
    ensures s.watchers[w].pc.signalled <==> Roused(steps, w)
    decreases |steps|
  {
    hide Enabled, Apply;
    if steps == [] {
    } else {
      var mid := BeforeLast(Succ, init, steps, s);
      SignalStep(mid, steps[|steps| - 1], w);
      if steps[|steps| - 1] != Check(w) {
        SignalsAreBroadcasts(init, steps[..|steps| - 1], mid, w);
      }
    }
  }

  // ----- counting turns

  /** How many steps since w's last call of Next pass the test. */
  function Since(steps: seq<Step>, w: WatcherId, test: Step -> bool): nat {
    if steps == [] || steps[|steps| - 1] == Next(w) then 0
    else Since(steps[..|steps| - 1], w, test) + Bit(test(steps[|steps| - 1]))
  }

  /** The checks w makes; one each time around the loop of Next. */
  function Checks(w: WatcherId): Step -> bool {
    step => step == Check(w)
  }

  predicate IsBroadcast(step: Step) {
    step.Broadcast?
  }

  lemma CounterStep(s: State, step: Step, w: WatcherId)
    requires Enabled(s, step) && w in s.watchers
    ensures var t := Apply(s, step);
            && w in t.watchers && t.broadcasts == s.broadcasts + Bit(IsBroadcast(step))
            && t.watchers[w].turns == (if step == Next(w) then 0 else s.watchers[w].turns + Bit(step == Check(w)))
            && t.watchers[w].base == (if step == Next(w) then s.broadcasts else s.watchers[w].base)
  {
  }

  lemma NoWatcherYet(s: State, step: Step, w: WatcherId)
    requires Enabled(s, step) && w !in s.watchers
    ensures step != Next(w) && step != Check(w)
    ensures w in Apply(s, step).watchers ==> Apply(s, step).watchers[w].turns == 0
  {
  }

  /** The counters of a watcher are the checks and the broadcasts since its call. */
  lemma {:induction false} CountersAreSteps(init: State, steps: seq<Step>, s: State, w: WatcherId)
    requires Initial(init) && Leads(Succ, init, steps, s)
    ensures w in s.watchers ==> s.watchers[w].turns == Since(steps, w, Checks(w))
    ensures w !in s.watchers ==> Since(steps, w, Checks(w)) == 0 && Next(w) !in steps
    ensures Next(w) in steps ==> s.broadcasts == s.watchers[w].base + Since(steps, w, IsBroadcast)
    decreases |steps|
  {
    hide Enabled, Apply;
    if steps == [] {
    } else {
      var last := steps[|steps| - 1];
      var mid := BeforeLast(Succ, init, steps, s);
      CountersAreSteps(init, steps[..|steps| - 1], mid, w);
      InSnoc(steps, Next(w));
      if w in mid.watchers {
        CounterStep(mid, last, w);
      } else {
        NoWatcherYet(mid, last, w);
      }
    }
  }

  /** The turns of a Next exceed the broadcasts made since its call by at most one; it never waits unprepared. */
  lemma TurnsBounded(init: State, steps: seq<Step>, s: State, w: WatcherId)
    requires Initial(init) && Leads(Succ, init, steps, s) && Next(w) in steps
    ensures Since(steps, w, Checks(w)) <= 1 + Since(steps, w, IsBroadcast)
    ensures w in s.watchers && (s.watchers[w].pc.Waiting? ==> s.ready)
  {
    Reached(init, steps, s);
    CountersAreSteps(init, steps, s, w);
    assert WatcherInv(s, s.watchers[w]);
  }

  // ----- letting go of the lock

  /** A step that would start the next Next of w, or the exclusive section of another watcher's Close. */
  predicate Disturbs(s: State, w: WatcherId, step: Step) {
    || step == Next(w)
    || (step.Mutate? && step.o in s.calls && s.calls[step.o].Requested?
        && s.calls[step.o].op.CloseWatcher? && s.calls[step.o].op.w != w)
  }

  /** The transition system during one Next of w, with no other watcher closed. */
  function Quiet(w: WatcherId): (State, Step) -> Option<State> {
    (s, step) => if Enabled(s, step) && !Disturbs(s, w, step) then Some(Apply(s, step)) else None
  }

  /** What letting go of read locks does not change. */
  predicate SameBut(s: State, t: State, w: WatcherId) {
    && w in s.watchers && t == s.(watchers := t.watchers)
    && t.watchers.Keys == s.watchers.Keys && t.watchers[w] == s.watchers[w]
  }

  /** Steps that take no lock. */
  predicate Releasing(steps: seq<Step>) {
    forall i :: 0 <= i < |steps| ==> steps[i].NeedsInit? || steps[i].Check? || steps[i].Park?
  }

  function Distance(v: Watcher): nat {
    match v.pc
    case Starting => 3
    case Checking => 2
    case Waiting(true, _) => 1
    case _ => 0
  }

  lemma ReleaseStep(s: State, v: WatcherId, w: WatcherId) returns (step: Step, t: State)
    requires w in s.watchers && v in s.watchers && v != w && HoldsLock(s.watchers[v])
    ensures Quiet(w)(s, step) == Some(t) && Releasing([step]) && SameBut(s, t, w)
    ensures t.watchers == s.watchers[v := t.watchers[v]] && Distance(t.watchers[v]) < Distance(s.watchers[v])
  {
    step := match s.watchers[v].pc
      case Starting => NeedsInit(v)
      case Checking => Check(v)
      case _ => Park(v);
    t := Apply(s, step);
  }

  lemma ReleaseOne(s: State, v: WatcherId, w: WatcherId) returns (steps: seq<Step>, t: State)
    requires w in s.watchers && v in s.watchers && v != w
    ensures Leads(Quiet(w), s, steps, t) && Releasing(steps) && SameBut(s, t, w)
    ensures t.watchers == s.watchers[v := t.watchers[v]] && !HoldsLock(t.watchers[v])
    decreases Distance(s.watchers[v])
  {
    hide Leads, Enabled, Apply;
    if !HoldsLock(s.watchers[v]) {
      steps, t := [], s;
      Stays(Quiet(w), s);
    } else {
      var step, u := ReleaseStep(s, v, w);
      steps, t := ReleaseOne(u, v, w);
      LeadsOne(Quiet(w), s, step, steps, t);
      steps := [step] + steps;
    }
  }

  /** The other watchers can let go of their read locks. */
  lemma ReleaseAll(s: State, w: WatcherId) returns (steps: seq<Step>, t: State)
    requires w in s.watchers && !HoldsLock(s.watchers[w])
    ensures Leads(Quiet(w), s, steps, t) && Releasing(steps) && SameBut(s, t, w) && Exclusive(t)
    decreases |Having(s.watchers, HoldsLock)|
  {
    hide Leads;
    if Having(s.watchers, HoldsLock) == {} {
      steps, t := [], s;
      Stays(Quiet(w), s);
      assert forall v :: v in s.watchers && HoldsLock(s.watchers[v]) ==> v in Having(s.watchers, HoldsLock);
    } else {
      var v :| v in Having(s.watchers, HoldsLock);
      var a, u := ReleaseOne(s, v, w);
      HavingUpdate(s.watchers, v, u.watchers[v], HoldsLock);
      var b;
      b, t := ReleaseAll(u, w);
      LeadsOn(Quiet(w), s, a, u, b, t);
      steps := a + b;
    }
  }

  lemma QuietRun(w: WatcherId, s: State, steps: seq<Step>, t: State)
    requires Leads(Quiet(w), s, steps, t)
    ensures Leads(Succ, s, steps, t)
  {
    hide Enabled, Apply;
    Fewer(Quiet(w), Succ, s, steps, t);
  }

  // ----- a watcher with news comes back

  /** What may happen until it does: no new call, and of the calls under way only the one already in Lock. */
  predicate Unprompted(steps: seq<Step>, writer: Writer) {
    forall i :: 0 <= i < |steps| ==>
      match steps[i]
      case Broadcast(_) | NeedsInit(_) | Check(_) | Park(_) | DoInit(_) | Wake(_) => true
      case Mutate(o) => writer == ByCall(o)
      case _ => false
  }

  /** A parked watcher with news is signalled, or will be by a Broadcast that is due. */
  lemma ParkedIsSignalled(init: State, before: seq<Step>, s: State, w: WatcherId) returns (steps: seq<Step>, t: State)
    requires Initial(init) && Leads(Succ, init, before, s)
    requires w in s.watchers && s.watchers[w].pc.Waiting? && !s.watchers[w].pc.locked && HasNews(s, s.watchers[w])
    ensures Leads(Succ, s, steps, t) && Unprompted(steps, s.writer) && t.writer == s.writer
    ensures w in t.watchers && t.watchers[w] == s.watchers[w].(pc := Waiting(false, true)) && HasNews(t, t.watchers[w])
  {
    NoLostWakeup(init, before, s, w);
    hide Leads;
    steps, t := [], s;
    Stays(Succ, s);
    if !s.watchers[w].pc.signalled {
      var o :| o in s.calls && s.calls[o].Broadcasting?;
      steps, t := Take(Succ, s, steps, t, Broadcast(o));
    }
  }

  /** Once no read lock is held, whoever is in Lock leaves its exclusive section. */
  lemma WriterLeaves(s: State, w: WatcherId) returns (steps: seq<Step>, t: State)
    requires Inv(s) && Exclusive(s) && w in s.watchers && s.watchers[w].pc == Waiting(false, true)
    requires HasNews(s, s.watchers[w])
    ensures Leads(Succ, s, steps, t) && Unprompted(steps, s.writer) && t.writer == NoWriter
    ensures w in t.watchers && t.watchers[w] == s.watchers[w].(closed := t.watchers[w].closed)
    ensures HasNews(t, t.watchers[w])
  {
    assert WatcherInv(s, s.watchers[w]);
    hide Leads, TurnInv, WakeInv;
    steps, t := [], s;
    Stays(Succ, s);
    match s.writer {
      case NoWriter =>
      case ByCall(o) => steps, t := Take(Succ, s, steps, t, Mutate(o));
      case ByWatcher(v) => steps, t := Take(Succ, s, steps, t, DoInit(v));
    }
  }

  /**
   A parked watcher with news returns with no further call of Set or Close,
   true exactly if the value then has a version it was not given.
   */
  lemma ParkedCanReturn(init: State, before: seq<Step>, s: State, w: WatcherId) returns (steps: seq<Step>, t: State)
    requires Initial(init) && Leads(Succ, init, before, s)
    requires w in s.watchers && s.watchers[w].pc.Waiting? && !s.watchers[w].pc.locked && HasNews(s, s.watchers[w])
    ensures Leads(Succ, s, steps, t) && Unprompted(steps, s.writer)
    ensures w in t.watchers && t.watchers[w].pc == Idle(s.watchers[w].version != t.version)
    ensures t.watchers[w].version == t.version
  {
    hide Leads, Enabled, Apply, Inv;
    var a, x := ParkedIsSignalled(init, before, s, w);
    var b, y := ReleaseAll(x, w);
    QuietRun(w, x, b, y);
    LeadsOn(Succ, s, a, x, b, y);
    LeadsOn(Succ, init, before, s, a + b, y);
    Reached(init, before + (a + b), y);
    var c, z := WriterLeaves(y, w);
    LeadsOn(Succ, s, a + b, y, c, z);
    steps, t := WakesUp(s, a + b + c, z, w);
  }

  lemma WakesUp(s: State, a: seq<Step>, t: State, w: WatcherId) returns (b: seq<Step>, u: State)
    requires Leads(Succ, s, a, t) && t.writer == NoWriter && w in t.watchers
    requires t.watchers[w].pc == Waiting(false, true) && HasNews(t, t.watchers[w])
    ensures b == a + [Wake(w), Check(w)] && Leads(Succ, s, b, u) && u.version == t.version
    ensures w in u.watchers && u.watchers[w].pc == Idle(t.watchers[w].version != t.version)
    ensures u.watchers[w].version == t.version
  {
    hide Leads;
    b, u := Take(Succ, s, a, t, Wake(w));
    b, u := Take(Succ, s, b, u, Check(w));
    assert a + [Wake(w)] + [Check(w)] == a + [Wake(w), Check(w)];
  }

  // ----- when the loop of Next goes around at most twice

  /** A broadcast of an older call can still wake w for nothing: no news, and no call in Lock to bring some first. */
  ghost predicate MayWakeIdly(s: State, w: Watcher) {
    Pending(s) && !HasNews(s, w) && !s.writer.ByCall?
  }

  /** What quiet steps keep when that is not so at the first check. */
  ghost predicate TwoTurns(s: State, w: Watcher) {
    var coming := HasNews(s, w) || s.writer.ByCall?;
    match w.pc
    case Checking => (w.turns == 0 && (Pending(s) ==> coming)) || (w.turns <= 1 && HasNews(s, w))
    case Waiting(_, signalled) => w.turns == 1 && (signalled || Pending(s) ==> coming)
    case Idle(_) => w.turns <= 2
    case _ => false
  }

  lemma NewsStays(s: State, w: WatcherId, step: Step)
    requires Inv(s) && w in s.watchers && Enabled(s, step) && HasNews(s, s.watchers[w]) && step != Check(w)
    ensures HasNews(Apply(s, step), Apply(s, step).watchers[w])
  {
    assert WatcherInv(s, s.watchers[w]);
    hide WakeInv, TurnInv, WriterInv;
  }

  lemma PendingStep(s: State, step: Step)
    requires Enabled(s, step)
    ensures Pending(Apply(s, step)) ==> Pending(s) || step.Mutate?
    ensures step.Broadcast? ==> Pending(s)
  {
    var t := Apply(s, step);
    if Pending(t) && !step.Mutate? {
      var o :| o in t.calls && t.calls[o].Broadcasting?;
      assert o in s.calls && s.calls[o].Broadcasting?;
    }
  }

  /** A quiet exclusive section of a call always brings news. */
  lemma MutateBringsNews(s: State, w: WatcherId, o: CallId)
    requires Inv(s) && w in s.watchers && Enabled(s, Mutate(o)) && !Disturbs(s, w, Mutate(o))
    ensures HasNews(Apply(s, Mutate(o)), Apply(s, Mutate(o)).watchers[w])
  {
    assert WatcherInv(s, s.watchers[w]);
    hide WakeInv, TurnInv, WriterInv;
  }

  /** The steps w itself takes from its first check on. */
  predicate Own(w: WatcherId, step: Step) {
    step == Check(w) || step == Park(w) || step == Wake(w)
  }

  lemma TwoTurnsOwn(s: State, w: WatcherId, step: Step)
    requires w in s.watchers && Enabled(s, step) && Own(w, step) && TwoTurns(s, s.watchers[w])
    ensures w in Apply(s, step).watchers && TwoTurns(Apply(s, step), Apply(s, step).watchers[w])
  {
    PendingStep(s, step);
    hide Pending;
  }

  /** Other steps signal w at most, or close it. */
  lemma OthersKeep(s: State, w: WatcherId, step: Step)
    requires WriterInv(s) && w in s.watchers && TwoTurns(s, s.watchers[w])
    requires Quiet(w)(s, step).Some? && !Own(w, step)
    ensures var t := Apply(s, step);
            && w in t.watchers
            && t.watchers[w] == (if step.Broadcast? then Signal(s.watchers[w]) else s.watchers[w])
                                .(closed := t.watchers[w].closed)
            && (s.writer.ByCall? && !step.Mutate? ==> t.writer == s.writer)
  {
    hide Pending;
  }

  lemma TwoTurnsStep(s: State, w: WatcherId, step: Step)
    requires Inv(s) && w in s.watchers && Quiet(w)(s, step).Some? && TwoTurns(s, s.watchers[w])
    ensures w in Apply(s, step).watchers && TwoTurns(Apply(s, step), Apply(s, step).watchers[w])
  {
    if Own(w, step) {
      TwoTurnsOwn(s, w, step);
    } else {
      PendingStep(s, step);
      WritersKnown(s);
      OthersKeep(s, w, step);
      if step.Mutate? {
        MutateBringsNews(s, w, step.o);
        NotHeld(s, w, step.o);
      } else if HasNews(s, s.watchers[w]) {
        NewsStays(s, w, step);
      }
      hide Inv, Pending, Apply, Enabled, HasNews;
    }
  }

  lemma NotHeld(s: State, w: WatcherId, o: CallId)
    requires w in s.watchers && Enabled(s, Mutate(o))
    ensures !HoldsLock(s.watchers[w])
  {
  }

  lemma TwoTurnsRun(s: State, w: WatcherId, steps: seq<Step>, t: State)
    requires Inv(s) && w in s.watchers && TwoTurns(s, s.watchers[w]) && Leads(Quiet(w), s, steps, t)
    ensures w in t.watchers && t.watchers[w].turns <= 2
  {
    hide Inv, Enabled, Apply;
    var inv := x => Inv(x) && w in x.watchers && TwoTurns(x, x.watchers[w]);
    forall x, a | inv(x) && Quiet(w)(x, a).Some?
      ensures inv(Quiet(w)(x, a).value)
    {
      StepInv(x, a);
      TwoTurnsStep(x, w, a);
    }
    Invariant(Quiet(w), inv, s, steps, t);
  }

  /** w is parked after n turns with nothing new. */
  ghost predicate Parked(s: State, w: WatcherId, n: nat, signalled: bool) {
    && w in s.watchers && s.watchers[w].pc == Waiting(false, signalled) && s.watchers[w].turns == n
    && !HasNews(s, s.watchers[w])
  }

  /** The first turn finds nothing, and the broadcast that was due signals w. */
  lemma IdleSignal(s: State, w: WatcherId) returns (steps: seq<Step>, t: State)
    requires w in s.watchers && s.watchers[w].pc.Checking? && s.watchers[w].turns == 0
    requires MayWakeIdly(s, s.watchers[w])
    ensures Leads(Quiet(w), s, steps, t) && Parked(t, w, 1, true) && t.writer == s.writer
  {
    hide Leads;
    var o :| o in s.calls && s.calls[o].Broadcasting?;
    Stays(Quiet(w), s);
    steps, t := Take(Quiet(w), s, [], s, Check(w));
    steps, t := Take(Quiet(w), s, steps, t, Park(w));
    steps, t := Take(Quiet(w), s, steps, t, Broadcast(o));
  }

  /** With no read lock held, a watcher's initialisation ends. */
  lemma InitEnds(s: State, w: WatcherId) returns (steps: seq<Step>, t: State)
    requires WriterInv(s) && Exclusive(s) && !s.writer.ByCall? && Parked(s, w, 1, true)
    ensures Leads(Quiet(w), s, steps, t) && Parked(t, w, 1, true) && t.writer == NoWriter && Exclusive(t)
  {
    hide Leads;
    steps, t := [], s;
    Stays(Quiet(w), s);
    if s.writer.ByWatcher? {
      steps, t := Take(Quiet(w), s, steps, t, DoInit(s.writer.w));
    }
  }

  /** The second turn finds nothing either. */
  lemma IdleTurn(s: State, w: WatcherId) returns (steps: seq<Step>, t: State)
    requires Parked(s, w, 1, true) && s.writer == NoWriter && Exclusive(s)
    ensures Leads(Quiet(w), s, steps, t) && Parked(t, w, 2, false) && t.writer == NoWriter && Exclusive(t)
  {
    hide Leads;
    Stays(Quiet(w), s);
    steps, t := Take(Quiet(w), s, [], s, Wake(w));
    steps, t := Take(Quiet(w), s, steps, t, Check(w));
    steps, t := Take(Quiet(w), s, steps, t, Park(w));
  }

  lemma SetIsMade(s: State, w: WatcherId) returns (steps: seq<Step>, t: State, o: CallId)
    requires Parked(s, w, 2, false) && s.writer == NoWriter && Exclusive(s)
    ensures Leads(Quiet(w), s, steps, t) && t.writer == NoWriter && t.watchers == s.watchers
    ensures o in t.calls && t.calls[o].Broadcasting?
  {
    hide Leads;
    o := Fresh(s.calls.Keys);
    Stays(Quiet(w), s);
    steps, t := Take(Quiet(w), s, [], s, Request(o, Set(Nil)));
    steps, t := Take(Quiet(w), s, steps, t, Lock(o));
    steps, t := Take(Quiet(w), s, steps, t, Mutate(o));
  }

  lemma SetSignals(s: State, w: WatcherId) returns (steps: seq<Step>, t: State)
    requires Parked(s, w, 2, false) && s.writer == NoWriter && Exclusive(s)
    ensures Leads(Quiet(w), s, steps, t) && t.writer == NoWriter && w in t.watchers
    ensures t.watchers[w].pc == Waiting(false, true) && t.watchers[w].turns == 2
  {
    hide Leads;
    var o;
    steps, t, o := SetIsMade(s, w);
    steps, t := Take(Quiet(w), s, steps, t, Broadcast(o));
  }

  lemma LastTurn(s: State, w: WatcherId, a: seq<Step>, t: State) returns (b: seq<Step>, u: State)
    requires Leads(Quiet(w), s, a, t) && t.writer == NoWriter && w in t.watchers
    requires t.watchers[w].pc == Waiting(false, true) && t.watchers[w].turns == 2
    ensures Leads(Quiet(w), s, b, u) && w in u.watchers && u.watchers[w].turns == 3
  {
    hide Leads;
    b, u := Take(Quiet(w), s, a, t, Wake(w));
    b, u := Take(Quiet(w), s, b, u, Check(w));
  }

  /** Woken for nothing and then by a Set, w makes a third turn. */
  lemma ThirdTurn(s: State, w: WatcherId) returns (steps: seq<Step>, t: State)
    requires Inv(s) && w in s.watchers && s.watchers[w].pc.Checking? && s.watchers[w].turns == 0
    requires MayWakeIdly(s, s.watchers[w])
    ensures Leads(Quiet(w), s, steps, t) && w in t.watchers && t.watchers[w].turns == 3
  {
    hide Leads, Inv, Enabled, Apply;
    var b, x, y;
    steps, x := IdleSignal(s, w);
    b, y := ReleaseAll(x, w);
    LeadsOn(Quiet(w), s, steps, x, b, y);
    steps := steps + b;
    KeepsInv(s, w, steps, y);
    WritersKnown(y);
    b, x := InitEnds(y, w);
    LeadsOn(Quiet(w), s, steps, y, b, x);
    steps := steps + b;
    b, y := IdleTurn(x, w);
    LeadsOn(Quiet(w), s, steps, x, b, y);
    steps := steps + b;
    b, x := SetSignals(y, w);
    LeadsOn(Quiet(w), s, steps, y, b, x);
    steps, t := LastTurn(s, w, steps + b, x);
  }

  lemma WritersKnown(s: State)
    requires Inv(s)
    ensures WriterInv(s)
  {
  }

  lemma KeepsInv(s: State, w: WatcherId, steps: seq<Step>, t: State)
    requires Inv(s) && Leads(Quiet(w), s, steps, t)
    ensures Inv(t)
  {
    QuietRun(w, s, steps, t);
    LeadsInv(s, steps, t);
  }

  /**
   When the comment in the source that the loop of Next goes around at most
   twice is right, other watchers' Close apart: exactly if, at its first check,
   it is not the case that a broadcast of an older call is still to come while
   there is no news and no call in Lock that will bring some.
   */
  lemma TwoTurnsIff(init: State, before: seq<Step>, s: State, w: WatcherId)
    requires Initial(init) && Leads(Succ, init, before, s)
    requires w in s.watchers && s.watchers[w].pc.Checking? && Since(before, w, Checks(w)) == 0
    ensures (forall steps, t :: Leads(Quiet(w), s, steps, t) ==> Count(steps, Checks(w)) <= 2)
            <==> !MayWakeIdly(s, s.watchers[w])
  {
    hide Inv, Enabled, Apply;
    Reached(init, before, s);
    CountersAreSteps(init, before, s, w);
    if MayWakeIdly(s, s.watchers[w]) {
      var steps, t := ThirdTurn(s, w);
      QuietCount(s, w, steps, t);
    } else {
      forall steps, t | Leads(Quiet(w), s, steps, t)
        ensures Count(steps, Checks(w)) <= 2
      {
        TwoTurnsRun(s, w, steps, t);
        QuietCount(s, w, steps, t);
      }
    }
  }

  /** During one Next, the turns are the checks. */
  lemma {:induction false} QuietCount(s: State, w: WatcherId, steps: seq<Step>, t: State)
    requires w in s.watchers && Leads(Quiet(w), s, steps, t)
    ensures w in t.watchers && t.watchers[w].turns == s.watchers[w].turns + Count(steps, Checks(w))
    decreases |steps|
  {
    hide Enabled, Apply;
    if steps == [] {
    } else {
      var mid := BeforeLast(Quiet(w), s, steps, t);
      QuietCount(s, w, steps[..|steps| - 1], mid);
      CounterStep(mid, steps[|steps| - 1], w);
    }
  }

  /** A Set whose Broadcast is late: w is given the value, calls Next again and has nothing new at its first check. */
  lemma LateBroadcast() returns (steps: seq<Step>, s: State)
    ensures Leads(Succ, NewValue(Nil), steps, s) && 0 in s.watchers
    ensures s.watchers[0].pc.Checking? && s.watchers[0].turns == 0 && MayWakeIdly(s, s.watchers[0])
  {
    hide Leads;
    var init := NewValue(Nil);
    Stays(Succ, init);
    steps, s := Take(Succ, init, [], init, Watch(0));
    steps, s := Take(Succ, init, steps, s, Request(0, Set(Val(1))));
    steps, s := Take(Succ, init, steps, s, Lock(0));
    steps, s := Take(Succ, init, steps, s, Mutate(0));
    steps, s := NextChecks(init, steps, s);
    steps, s := Take(Succ, init, steps, s, Check(0));
    steps, s := NextChecks(init, steps, s);
    assert 0 in s.calls && s.calls[0].Broadcasting?;
  }

  lemma NextChecks(init: State, a: seq<Step>, s: State) returns (b: seq<Step>, t: State)
    requires Leads(Succ, init, a, s) && 0 in s.watchers && s.watchers[0].pc.Idle? && s.ready && s.writer == NoWriter
    ensures Leads(Succ, init, b, t) && 0 in t.watchers && t == s.(watchers := t.watchers)
    ensures t.watchers[0] == s.watchers[0].(pc := Checking, turns := 0, base := s.broadcasts)
  {
    hide Leads;
    b, t := Take(Succ, init, a, s, Next(0));
    b, t := Take(Succ, init, b, t, RLock(0));
    b, t := Take(Succ, init, b, t, NeedsInit(0));
  }

  /** Three turns of one Next with no other watcher closed, against the comment in the source. */
  lemma ThreeTurns() returns (before: seq<Step>, s: State, steps: seq<Step>, t: State)
    ensures Leads(Succ, NewValue(Nil), before, s) && Leads(Quiet(0), s, steps, t)
    ensures Since(before, 0, Checks(0)) == 0 && Count(steps, Checks(0)) == 3
  {
    before, s := LateBroadcast();
    Reached(NewValue(Nil), before, s);
    CountersAreSteps(NewValue(Nil), before, s, 0);
    steps, t := ThirdTurn(s, 0);
    QuietCount(s, 0, steps, t);
  }

  // ----- the loop of Next can go around any number of times

  /** Watcher 0 has made n turns, one more than there were broadcasts, and is parked; watcher 1 is idle. */
  ghost predicate AfterTurns(s: State, n: nat) {
    && 0 in s.watchers && 1 in s.watchers && s.watchers.Keys == {0, 1}
    && s.watchers[0].pc == Waiting(false, false) && s.watchers[0].turns == n && !HasNews(s, s.watchers[0])
    && n == 1 + s.broadcasts - s.watchers[0].base
    && s.watchers[1].pc.Idle?
    && s.writer == NoWriter && (forall o :: o in s.calls ==> o < n)
  }

  lemma FirstTurn() returns (steps: seq<Step>, s: State)
    ensures Leads(Succ, NewValue(Nil), steps, s) && AfterTurns(s, 1)
  {
    hide Leads;
    var init := NewValue(Nil);
    Stays(Succ, init);
    steps, s := Take(Succ, init, [], init, Watch(0));
    steps, s := Take(Succ, init, steps, s, Watch(1));
    steps, s := Take(Succ, init, steps, s, Next(0));
    steps, s := Take(Succ, init, steps, s, RLock(0));
    steps, s := Take(Succ, init, steps, s, NeedsInit(0));
    steps, s := Take(Succ, init, steps, s, Check(0));
    steps, s := Take(Succ, init, steps, s, Park(0));
  }

  /** The other watcher is closed. */
  lemma OtherCloses(s: State, n: nat) returns (steps: seq<Step>, t: State)
    requires AfterTurns(s, n)
    ensures Leads(Succ, s, steps, t)
    ensures t == s.(writer := NoWriter, ready := true, calls := s.calls[n := Broadcasting],
                    watchers := s.watchers[1 := s.watchers[1].(closed := true)])
  {
    hide Leads;
    Stays(Succ, s);
    steps, t := Take(Succ, s, [], s, Request(n, CloseWatcher(1)));
    steps, t := Take(Succ, s, steps, t, Lock(n));
    steps, t := Take(Succ, s, steps, t, Mutate(n));
  }

  lemma OtherSignals(s: State, n: nat) returns (steps: seq<Step>, t: State)
    requires AfterTurns(s, n)
    ensures Leads(Succ, s, steps, t) && t.version == s.version && t.closed == s.closed
    ensures t.broadcasts == s.broadcasts + 1 && t.writer == NoWriter && t.calls == s.calls[n := Done]
    ensures t.watchers.Keys == {0, 1} && t.watchers[1].pc.Idle?
    ensures t.watchers[0] == s.watchers[0].(pc := Waiting(false, true))
  {
    hide Leads;
    steps, t := OtherCloses(s, n);
    steps, t := Take(Succ, s, steps, t, Broadcast(n));
  }

  /** Its broadcast wakes watcher 0, which finds nothing. */
  lemma OneMoreTurn(s: State, n: nat) returns (steps: seq<Step>, t: State)
    requires AfterTurns(s, n)
    ensures Leads(Succ, s, steps, t) && AfterTurns(t, n + 1)
  {
    hide Leads;
    steps, t := OtherSignals(s, n);
    steps, t := Take(Succ, s, steps, t, Wake(0));
    steps, t := Take(Succ, s, steps, t, Check(0));
    steps, t := Take(Succ, s, steps, t, Park(0));
  }

  lemma {:induction false} ManyTurns(n: nat) returns (steps: seq<Step>, s: State)
    requires n >= 1
    ensures Leads(Succ, NewValue(Nil), steps, s) && AfterTurns(s, n)
  {
    if n == 1 {
      steps, s := FirstTurn();
    } else {
      var a, t := ManyTurns(n - 1);
      var b;
      b, s := OneMoreTurn(t, n - 1);
      LeadsOn(Succ, NewValue(Nil), a, t, b, s);
      steps := a + b;
    }
  }

  /** The turns of one Next have no bound, against the comment in the source that says two. */
  lemma TurnsUnbounded(n: nat) returns (steps: seq<Step>, s: State)
    requires n >= 1
    ensures Leads(Succ, NewValue(Nil), steps, s) && Since(steps, 0, Checks(0)) == n
  {
    steps, s := ManyTurns(n);
    CountersAreSteps(NewValue(Nil), steps, s, 0);
  }
}
