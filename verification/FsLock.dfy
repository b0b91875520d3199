/**
 fslock/fslock.go as a transition system over one parent directory. Every
 system call of a client is one step, calls may fail, and a client may crash
 between any two steps. A handle is used by one thread at a time and nonces
 are distinct. A rename is atomic and fails onto a directory that is not
 empty, as rename() of IEEE Std 1003.1 (System Interfaces) does.
 */
module FsLock {
  import opened Options
  import opened LockNames
  import opened Runs

  type Id = nat

  /** A directory: the contents of its files "held" and "message". */
  datatype Dir = Dir(held: Option<seq<byte>>, message: Option<string>)

  datatype Lock = Lock(name: string, nonce: Nonce)

  /** What the last call of Lock or Unlock returned. */
  datatype Result = NoCall | Locked | LockFailed | NotHeld | Unlocked | UnlockFailed

  datatype Pc =
    | Idle(ret: Result)
    // acquire and the loop around it
    | Statting(msg: string)
    | MakingTemp(msg: string)
    | CreatingHeld(suffix: string, msg: string)
    | WritingHeld(suffix: string, msg: string)
    | CreatingMessage(suffix: string, msg: string)
    | WritingMessage(suffix: string, msg: string)
    | RenamingIn(suffix: string, msg: string)
    | Cleaning(suffix: string, msg: string)
    | Deciding(msg: string)
    // Unlock
    | Checking
    | RenamingOut
    | Clearing
    | Crashed

  /** `holding` is the message given, from the acquiring rename to the releasing one. */
  datatype Client = Client(lock: Lock, pc: Pc, holding: Option<string>)

  datatype State = State(fs: map<string, Dir>, clients: map<Id, Client>)

  datatype Step =
    | NewLock(h: Id, name: string, nonce: Nonce)
    | CallLock(h: Id, msg: string)
    | Stat(h: Id)
    | MakeTemp(h: Id, suffix: string)
    | CreateHeld(h: Id)
    | WriteHeld(h: Id)
    | CreateMessage(h: Id)
    | WriteMessage(h: Id)
    | RenameIn(h: Id)
    | GoOn(h: Id)                  // continueFunc lets the loop go on
    | GiveUp(h: Id)                // continueFunc returns an error
    | CallUnlock(h: Id)
    | Check(h: Id)
    | RenameOut(h: Id)
    | RemoveHeld(h: Id)            // parts of RemoveAll
    | RemoveMessage(h: Id)
    | RemoveDir(h: Id)
    | RemoveEnds(h: Id)
    | Fault(h: Id)                 // the current system call fails
    | Crash(h: Id)

  function Init(): State {
    State(map[], map[])
  }

  /** The directory RemoveAll works on. */
  function Removing(c: Client): string
    requires c.pc.Cleaning? || c.pc.Clearing?
  {
    if c.pc.Cleaning? then TempName(c.lock.nonce, c.pc.suffix) else Release(c.lock)
  }

  function Release(lock: Lock): string {
    ReleaseName(lock.name, lock.nonce)
  }

  function Temp(c: Client): string
    requires c.pc.CreatingHeld? || c.pc.WritingHeld? || c.pc.CreatingMessage? || c.pc.WritingMessage?
             || c.pc.RenamingIn? || c.pc.Cleaning?
  {
    TempName(c.lock.nonce, c.pc.suffix)
  }

  /** A rename onto this name succeeds. */
  predicate Vacant(fs: map<string, Dir>, name: string) {
    name in fs ==> fs[name] == Dir(None, None)
  }

  predicate HeldBy(fs: map<string, Dir>, lock: Lock) {
    lock.name in fs && fs[lock.name].held == Some(lock.nonce)
  }

  predicate Writes(pc: Pc) {
    pc.CreatingHeld? || pc.WritingHeld? || pc.CreatingMessage? || pc.WritingMessage?
  }

  predicate Removes(pc: Pc) {
    pc.Cleaning? || pc.Clearing?
  }

  predicate EnabledFor(fs: map<string, Dir>, c: Client, step: Step) {
    match step
    case NewLock(_, _, _) => false
    case CallLock(_, _) => c.pc.Idle?
    case Stat(_) => c.pc.Statting?
    case MakeTemp(_, suffix) => c.pc.MakingTemp? && AllDigits(suffix) && TempName(c.lock.nonce, suffix) !in fs
    case CreateHeld(_) => c.pc.CreatingHeld? && Temp(c) in fs
    case WriteHeld(_) => c.pc.WritingHeld? && Temp(c) in fs
    case CreateMessage(_) => c.pc.CreatingMessage? && Temp(c) in fs
    case WriteMessage(_) => c.pc.WritingMessage? && Temp(c) in fs
    case RenameIn(_) => c.pc.RenamingIn? && Temp(c) in fs && Vacant(fs, c.lock.name)
    case GoOn(_) => c.pc.Deciding?
    case GiveUp(_) => c.pc.Deciding?
    case CallUnlock(_) => c.pc.Idle?
    case Check(_) => c.pc.Checking?
    case RenameOut(_) => c.pc.RenamingOut? && c.lock.name in fs && Vacant(fs, Release(c.lock))
    case RemoveHeld(_) => Removes(c.pc) && Removing(c) in fs
    case RemoveMessage(_) => Removes(c.pc) && Removing(c) in fs
    case RemoveDir(_) => Removes(c.pc) && Removing(c) in fs && fs[Removing(c)] == Dir(None, None)
    case RemoveEnds(_) => Removes(c.pc)
    case Fault(_) => (c.pc.Statting? || c.pc.MakingTemp? || Writes(c.pc) || c.pc.RenamingIn?
                      || c.pc.Checking? || c.pc.RenamingOut?)
    case Crash(_) => true
  }

  /** A call that returns an error leaves what it has made behind. */
  function FaultPc(c: Client): Pc
    requires EnabledFor(map[], c, Fault(0))
  {
    match c.pc
    case RenamingIn(suffix, msg) => Cleaning(suffix, msg)
    case Checking => Idle(NotHeld)
    case RenamingOut => Idle(UnlockFailed)
    case _ => Idle(LockFailed)
  }

  /** The client after its step. */
  function ClientAfter(fs: map<string, Dir>, c: Client, step: Step): Client
    requires EnabledFor(fs, c, step)
  {
    match step
    case CallLock(_, msg) => c.(pc := Statting(msg))
    case Stat(_) => c.(pc := if c.lock.name in fs then Deciding(c.pc.msg) else MakingTemp(c.pc.msg))
    case MakeTemp(_, suffix) => c.(pc := CreatingHeld(suffix, c.pc.msg))
    case CreateHeld(_) => c.(pc := WritingHeld(c.pc.suffix, c.pc.msg))
    case WriteHeld(_) =>
      c.(pc := if c.pc.msg != "" then CreatingMessage(c.pc.suffix, c.pc.msg) else RenamingIn(c.pc.suffix, c.pc.msg))
    case CreateMessage(_) => c.(pc := WritingMessage(c.pc.suffix, c.pc.msg))
    case WriteMessage(_) => c.(pc := RenamingIn(c.pc.suffix, c.pc.msg))
    case RenameIn(_) => c.(pc := Idle(Locked), holding := Some(c.pc.msg))
    case GoOn(_) => c.(pc := Statting(c.pc.msg))
    case GiveUp(_) => c.(pc := Idle(LockFailed))
    case CallUnlock(_) => c.(pc := Checking)
    case Check(_) => c.(pc := if HeldBy(fs, c.lock) then RenamingOut else Idle(NotHeld))
    case RenameOut(_) => c.(pc := Clearing, holding := None)
    case RemoveEnds(_) =>
      c.(pc := if c.pc.Cleaning? then Deciding(c.pc.msg)
               else if Removing(c) in fs then Idle(UnlockFailed) else Idle(Unlocked))
    case Fault(_) => c.(pc := FaultPc(c))
    case Crash(_) => c.(pc := Crashed)
    case _ => c
  }

  /** The file system after the client's step. */
  function FsAfter(fs: map<string, Dir>, c: Client, step: Step): map<string, Dir>
    requires EnabledFor(fs, c, step)
  {
    match step
    case MakeTemp(_, suffix) => fs[TempName(c.lock.nonce, suffix) := Dir(None, None)]
    case CreateHeld(_) => fs[Temp(c) := fs[Temp(c)].(held := Some([]))]
    case WriteHeld(_) => fs[Temp(c) := fs[Temp(c)].(held := Some(c.lock.nonce))]
    case CreateMessage(_) => fs[Temp(c) := fs[Temp(c)].(message := Some(""))]
    case WriteMessage(_) => fs[Temp(c) := fs[Temp(c)].(message := Some(c.pc.msg))]
    case RenameIn(_) => (fs - {Temp(c)})[c.lock.name := fs[Temp(c)]]
    case RenameOut(_) => (fs - {c.lock.name})[Release(c.lock) := fs[c.lock.name]]
    case RemoveHeld(_) => fs[Removing(c) := fs[Removing(c)].(held := None)]
    case RemoveMessage(_) => fs[Removing(c) := fs[Removing(c)].(message := None)]
    case RemoveDir(_) => fs - {Removing(c)}
    case _ => fs
  }

  predicate Enabled(s: State, step: Step) {
    if step.NewLock? then
      && step.h !in s.clients && ValidName(step.name)
      && forall g :: g in s.clients ==> s.clients[g].lock.nonce != step.nonce
    else step.h in s.clients && s.clients[step.h].pc != Crashed && EnabledFor(s.fs, s.clients[step.h], step)
  }

  function Apply(s: State, step: Step): State
    requires Enabled(s, step)
  {
    if step.NewLock? then
      s.(clients := s.clients[step.h := Client(Lock(step.name, step.nonce), Idle(NoCall), None)])
    else
      var c := s.clients[step.h];
      State(FsAfter(s.fs, c, step), s.clients[step.h := ClientAfter(s.fs, c, step)])
  }

  /** The transition system. */
  function Succ(s: State, step: Step): Option<State> {
    if Enabled(s, step) then Some(Apply(s, step)) else None
  }

  // ----- what other handles can observe

  /** IsLocked: the file "held" exists. */
  predicate IsLocked(s: State, name: string) {
    name in s.fs && s.fs[name].held.Some?
  }

  predicate IsLockHeld(s: State, lock: Lock) {
    HeldBy(s.fs, lock)
  }

  function Message(s: State, name: string): string {
    if name in s.fs && s.fs[name].message.Some? then s.fs[name].message.value else ""
  }

  predicate Holds(s: State, h: Id, name: string) {
    h in s.clients && s.clients[h].lock.name == name && s.clients[h].holding.Some?
  }

  // ----- the invariant

  /** A complete lock directory. */
  function Published(nonce: Nonce, msg: string): Dir {
    Dir(Some(nonce), if msg == "" then None else Some(msg))
  }

  /** What a handle's temporary directory holds at each position. */
  ghost predicate TempInv(fs: map<string, Dir>, c: Client) {
    var n := c.lock.nonce;
    match c.pc
    case CreatingHeld(x, _) => AllDigits(x) && Temp(c) in fs && fs[Temp(c)] == Dir(None, None)
    case WritingHeld(x, _) => AllDigits(x) && Temp(c) in fs && fs[Temp(c)] == Dir(Some([]), None)
    case CreatingMessage(x, m) => AllDigits(x) && m != "" && Temp(c) in fs && fs[Temp(c)] == Dir(Some(n), None)
    case WritingMessage(x, m) => AllDigits(x) && m != "" && Temp(c) in fs && fs[Temp(c)] == Dir(Some(n), Some(""))
    case RenamingIn(x, m) => AllDigits(x) && Temp(c) in fs && fs[Temp(c)] == Published(n, m)
    case Cleaning(x, _) => AllDigits(x)
    case _ => true
  }

  ghost predicate PcInv(c: Client) {
    match c.pc
    case Idle(ret) => (ret == Locked ==> c.holding.Some?) && (ret == Unlocked ==> c.holding == None)
    case RenamingOut => c.holding.Some?
    case Clearing => c.holding == None
    case _ => true
  }

  ghost predicate HeldInv(fs: map<string, Dir>, c: Client) {
    c.holding.Some? ==> c.lock.name in fs && fs[c.lock.name] == Published(c.lock.nonce, c.holding.value)
  }

  ghost predicate ClientInv(fs: map<string, Dir>, c: Client) {
    ValidName(c.lock.name) && TempInv(fs, c) && PcInv(c) && HeldInv(fs, c)
  }

  ghost predicate DistinctNonces(clients: map<Id, Client>) {
    forall g, h :: g in clients && h in clients && g != h ==> clients[g].lock.nonce != clients[h].lock.nonce
  }

  /** A directory with a lock's name belongs to a holder. */
  ghost predicate Owned(s: State) {
    forall name :: name in s.fs && ValidName(name) ==> exists h :: Holds(s, h, name)
  }

  ghost predicate Inv(s: State) {
    && DistinctNonces(s.clients)
    && (forall h :: h in s.clients ==> ClientInv(s.fs, s.clients[h]))
    && Owned(s)
  }

  // ----- one step

  predicate Same(a: map<string, Dir>, b: map<string, Dir>, name: string) {
    (name in a <==> name in b) && (name in a ==> a[name] == b[name])
  }

  predicate AtTemp(pc: Pc) {
    Writes(pc) || pc.RenamingIn? || pc.Cleaning?
  }

  /** A step of c changes no other name than its own temporary, release and lock names. */
  lemma StepFrame(fs: map<string, Dir>, c: Client, step: Step, name: string)
    requires EnabledFor(fs, c, step)
    requires name != Release(c.lock)
    requires AtTemp(c.pc) ==> name != Temp(c)
    requires step.MakeTemp? ==> name != TempName(c.lock.nonce, step.suffix)
    requires name == c.lock.name ==> !step.RenameIn? && !step.RenameOut?
    ensures Same(fs, FsAfter(fs, c, step), name)
  {
  }

  /** The names of d's own directories are none of c's. */
  lemma NamesApart(c: Client, d: Client, x: string, y: string)
    requires c.lock.nonce != d.lock.nonce && ValidName(c.lock.name) && AllDigits(x) && AllDigits(y)
    ensures var t := TempName(d.lock.nonce, y);
            t != Release(c.lock) && t != TempName(c.lock.nonce, x) && t != c.lock.name
  {
    TempNotRelease(d.lock.nonce, y, c.lock.name, c.lock.nonce);
    TempNamesDiffer(c.lock.nonce, x, d.lock.nonce, y);
    TemporaryNotValid("", d.lock.nonce, y);
  }

  lemma ValidApart(c: Client, name: string, x: string)
    requires ValidName(name)
    ensures name != Release(c.lock) && name != TempName(c.lock.nonce, x)
  {
    TemporaryNotValid(c.lock.name, c.lock.nonce, x);
  }

  /** The suffix of c's temporary directory, or of the one being made. */
  function SuffixOf(c: Client, step: Step): string {
    if step.MakeTemp? then step.suffix else if AtTemp(c.pc) then c.pc.suffix else ""
  }

  lemma OtherTemp(fs: map<string, Dir>, c: Client, step: Step, d: Client)
    requires EnabledFor(fs, c, step) && ClientInv(fs, c) && ClientInv(fs, d) && c.lock.nonce != d.lock.nonce
    ensures TempInv(FsAfter(fs, c, step), d)
  {
    hide FsAfter, ValidName, TempName, ReleaseName;
    if AtTemp(d.pc) {
      NamesApart(c, d, SuffixOf(c, step), d.pc.suffix);
      StepFrame(fs, c, step, Temp(d));
    }
  }

  lemma OtherHeld(fs: map<string, Dir>, c: Client, step: Step, d: Client)
    requires EnabledFor(fs, c, step) && ClientInv(fs, c) && ClientInv(fs, d) && c.lock.nonce != d.lock.nonce
    ensures HeldInv(FsAfter(fs, c, step), d)
  {
    hide FsAfter, ValidName, TempName, ReleaseName;
    if d.holding.Some? {
      ValidApart(c, d.lock.name, SuffixOf(c, step));
      StepFrame(fs, c, step, d.lock.name);
    }
  }

  /** Only its holder finds its own nonce in a lock directory. */
  lemma NonceMeansHeld(s: State, h: Id)
    requires Inv(s) && h in s.clients && HeldBy(s.fs, s.clients[h].lock)
    ensures s.clients[h].holding.Some?
  {
    hide TempInv, PcInv;
    var g :| Holds(s, g, s.clients[h].lock.name);
    assert ClientInv(s.fs, s.clients[h]) && ClientInv(s.fs, s.clients[g]);
  }

  lemma SelfKept(fs: map<string, Dir>, c: Client, step: Step)
    requires EnabledFor(fs, c, step) && ClientInv(fs, c)
    requires HeldBy(fs, c.lock) ==> c.holding.Some?
    ensures ClientInv(FsAfter(fs, c, step), ClientAfter(fs, c, step))
  {
    hide ValidName, TempName, ReleaseName;
    ValidApart(c, c.lock.name, SuffixOf(c, step));
  }

  lemma OwnedKept(s: State, step: Step)
    requires Inv(s) && Enabled(s, step)
    ensures Owned(Apply(s, step))
  {
    hide ValidName, TempName, ReleaseName, TempInv, PcInv;
    var t := Apply(s, step);
    forall name | name in t.fs && ValidName(name)
      ensures exists h :: Holds(t, h, name)
    {
      if step.NewLock? {
        var h :| Holds(s, h, name);
        assert Holds(t, h, name);
      } else {
        OwnedKeptAt(s, step, name);
      }
    }
  }

  lemma OwnedKeptAt(s: State, step: Step, name: string)
    requires Inv(s) && Enabled(s, step) && !step.NewLock?
    requires name in Apply(s, step).fs && ValidName(name)
    ensures exists h :: Holds(Apply(s, step), h, name)
  {
    hide ValidName, TempName, ReleaseName, TempInv, PcInv;
    var t, c := Apply(s, step), s.clients[step.h];
    ValidApart(c, name, SuffixOf(c, step));
    if step.RenameIn? && name == c.lock.name {
      assert Holds(t, step.h, name);
    } else {
      assert name in s.fs;
      var h :| Holds(s, h, name);
      assert Holds(t, h, name);
    }
  }

  lemma StepInv(s: State, step: Step)
    requires Inv(s) && Enabled(s, step)
    ensures Inv(Apply(s, step))
  {
    hide ValidName, TempName, ReleaseName, TempInv, PcInv, HeldInv, FsAfter, ClientAfter, EnabledFor, Owned;
    OwnedKept(s, step);
    if !step.NewLock? {
      StepClients(s, step);
    } else {
      NewClient(s.fs, Lock(step.name, step.nonce));
    }
  }

  lemma NewClient(fs: map<string, Dir>, lock: Lock)
    requires ValidName(lock.name)
    ensures ClientInv(fs, Client(lock, Idle(NoCall), None))
  {
  }

  lemma OtherKept(fs: map<string, Dir>, c: Client, step: Step, d: Client)
    requires EnabledFor(fs, c, step) && ClientInv(fs, c) && ClientInv(fs, d) && c.lock.nonce != d.lock.nonce
    ensures ClientInv(FsAfter(fs, c, step), d)
  {
    hide ValidName, TempInv, PcInv, HeldInv, FsAfter, EnabledFor;
    OtherTemp(fs, c, step, d);
    OtherHeld(fs, c, step, d);
  }

  lemma LockKept(fs: map<string, Dir>, c: Client, step: Step)
    requires EnabledFor(fs, c, step)
    ensures ClientAfter(fs, c, step).lock == c.lock
  {
  }

  lemma StepClients(s: State, step: Step)
    requires Inv(s) && Enabled(s, step) && !step.NewLock?
    ensures DistinctNonces(Apply(s, step).clients)
    ensures forall h :: h in s.clients ==> ClientInv(Apply(s, step).fs, Apply(s, step).clients[h])
  {
    hide ClientInv, ClientAfter, FsAfter, EnabledFor, Owned;
    var c := s.clients[step.h];
    LockKept(s.fs, c, step);
    if HeldBy(s.fs, c.lock) {
      NonceMeansHeld(s, step.h);
    }
    SelfKept(s.fs, c, step);
    forall h | h in s.clients && h != step.h
      ensures ClientInv(FsAfter(s.fs, c, step), s.clients[h])
    {
      OtherKept(s.fs, c, step, s.clients[h]);
    }
  }

  // ----- every reachable state

  lemma LeadsInv(s: State, steps: seq<Step>, t: State)
    requires Inv(s) && Leads(Succ, s, steps, t)
    ensures Inv(t)
  {
    hide Inv, Enabled, Apply;
    forall x, a | Inv(x) && Succ(x, a).Some?
      ensures Inv(Succ(x, a).value)
    {
      StepInv(x, a);
    }
    Invariant(Succ, Inv, s, steps, t);
  }

  lemma Reached(steps: seq<Step>, s: State)
    requires Leads(Succ, Init(), steps, s)
    ensures Inv(s)
  {
    LeadsInv(Init(), steps, s);
  }

  /**
   Mutual exclusion: over every interleaving, failure and crash, at most one
   handle for a name is between its acquiring rename and its releasing one.
   */
  lemma MutualExclusion(steps: seq<Step>, s: State, name: string, g: Id, h: Id)
    requires Leads(Succ, Init(), steps, s) && Holds(s, g, name) && Holds(s, h, name)
    ensures g == h
  {
    Reached(steps, s);
    assert ClientInv(s.fs, s.clients[g]) && ClientInv(s.fs, s.clients[h]);
  }

  /** A lock directory exists exactly while some handle holds the lock, and is then complete. */
  lemma AtomicPublication(steps: seq<Step>, s: State, name: string)
    requires Leads(Succ, Init(), steps, s) && ValidName(name)
    ensures name in s.fs <==> exists h :: Holds(s, h, name)
    ensures forall h :: Holds(s, h, name) ==>
              name in s.fs && s.fs[name] == Published(s.clients[h].lock.nonce, s.clients[h].holding.value)
  {
    Reached(steps, s);
    forall h | Holds(s, h, name)
      ensures HeldInv(s.fs, s.clients[h])
    {
      assert ClientInv(s.fs, s.clients[h]);
    }
  }

  /** What the queries answer about a handle's lock, in terms of who holds it. */
  lemma QueriesAgree(steps: seq<Step>, s: State, h: Id)
    requires Leads(Succ, Init(), steps, s) && h in s.clients
    ensures var lock := s.clients[h].lock;
            && (IsLocked(s, lock.name) <==> exists g :: Holds(s, g, lock.name))
            && (IsLockHeld(s, lock) <==> Holds(s, h, lock.name))
            && (forall g :: Holds(s, g, lock.name) ==> Message(s, lock.name) == s.clients[g].holding.value)
            && ((forall g :: !Holds(s, g, lock.name)) ==> Message(s, lock.name) == "")
  {
    Reached(steps, s);
    var lock := s.clients[h].lock;
    assert ClientInv(s.fs, s.clients[h]);
    AtomicPublication(steps, s, lock.name);
    if IsLockHeld(s, lock) {
      NonceMeansHeld(s, h);
    }
    if IsLocked(s, lock.name) {
      var g :| Holds(s, g, lock.name);
    }
  }

  /** A check made by a holder passes, and stays true until its own releasing rename. */
  lemma ReleaseIsOwn(steps: seq<Step>, s: State, step: Step)
    requires Leads(Succ, Init(), steps, s) && Enabled(s, step)
    requires step.RenameOut?
    ensures IsLockHeld(s, s.clients[step.h].lock) && s.clients[step.h].holding.Some?
    ensures forall g :: !Holds(Apply(s, step), g, s.clients[step.h].lock.name)
  {
    Reached(steps, s);
    assert ClientInv(s.fs, s.clients[step.h]);
    forall g | Holds(s, g, s.clients[step.h].lock.name)
      ensures g == step.h
    {
      MutualExclusion(steps, s, s.clients[step.h].lock.name, g, step.h);
    }
  }

  // ----- what a handle can do

  lemma CanMakeTemp(s: State, h: Id, msg: string, suffix: string) returns (steps: seq<Step>, t: State)
    requires h in s.clients && s.clients[h].pc.Idle? && s.clients[h].lock.name !in s.fs
    requires AllDigits(suffix) && TempName(s.clients[h].lock.nonce, suffix) !in s.fs
    ensures Leads(Succ, s, steps, t)
    ensures t.clients == s.clients[h := s.clients[h].(pc := CreatingHeld(suffix, msg))]
    ensures t.fs == s.fs[TempName(s.clients[h].lock.nonce, suffix) := Dir(None, None)]
  {
    hide TempName, Leads;
    Stays(Succ, s);
    steps, t := Take(Succ, s, [], s, CallLock(h, msg));
    steps, t := Take(Succ, s, steps, t, Stat(h));
    steps, t := Take(Succ, s, steps, t, MakeTemp(h, suffix));
  }

  /** A free lock is prepared for by the handle that finds it free. */
  lemma CanPrepare(s: State, h: Id, msg: string, suffix: string) returns (steps: seq<Step>, t: State)
    requires h in s.clients && s.clients[h].pc.Idle? && s.clients[h].lock.name !in s.fs
    requires AllDigits(suffix) && TempName(s.clients[h].lock.nonce, suffix) !in s.fs
    ensures Leads(Succ, s, steps, t)
    ensures t.clients == s.clients[h := s.clients[h].(pc := if msg != "" then CreatingMessage(suffix, msg)
                                                            else RenamingIn(suffix, msg))]
    ensures t.fs == s.fs[TempName(s.clients[h].lock.nonce, suffix) := Dir(Some(s.clients[h].lock.nonce), None)]
  {
    hide TempName, Leads;
    steps, t := CanMakeTemp(s, h, msg, suffix);
    steps, t := Take(Succ, s, steps, t, CreateHeld(h));
    steps, t := Take(Succ, s, steps, t, WriteHeld(h));
  }

  /** The rest of acquire, with the temporary directory written but for the message. */
  lemma CanPublish(s: State, h: Id, msg: string, suffix: string) returns (steps: seq<Step>, t: State)
    requires h in s.clients && s.clients[h].lock.name !in s.fs
    requires s.clients[h].pc == if msg != "" then CreatingMessage(suffix, msg) else RenamingIn(suffix, msg)
    requires Temp(s.clients[h]) in s.fs && s.fs[Temp(s.clients[h])] == Dir(Some(s.clients[h].lock.nonce), None)
    ensures Leads(Succ, s, steps, t)
    ensures t.clients == s.clients[h := s.clients[h].(pc := Idle(Locked), holding := Some(msg))]
    ensures t.fs == (s.fs - {Temp(s.clients[h])})[s.clients[h].lock.name := Published(s.clients[h].lock.nonce, msg)]
  {
    hide TempName, Leads;
    steps, t := [], s;
    Stays(Succ, s);
    if msg != "" {
      steps, t := Take(Succ, s, steps, t, CreateMessage(h));
      steps, t := Take(Succ, s, steps, t, WriteMessage(h));
    }
    steps, t := Take(Succ, s, steps, t, RenameIn(h));
  }

  /** If no call fails and no other client acts, a handle acquires a lock nobody holds. */
  lemma CanAcquire(before: seq<Step>, s: State, h: Id, msg: string)
    returns (steps: seq<Step>, t: State)
    requires Leads(Succ, Init(), before, s) && h in s.clients && s.clients[h].pc.Idle?
    requires forall g :: !Holds(s, g, s.clients[h].lock.name)
    ensures Leads(Succ, s, steps, t)
    ensures t.clients == s.clients[h := s.clients[h].(pc := Idle(Locked), holding := Some(msg))]
    ensures t.fs == s.fs[s.clients[h].lock.name := Published(s.clients[h].lock.nonce, msg)]
  {
    hide TempName, ReleaseName, Inv, Enabled, Apply, Leads;
    var lock := s.clients[h].lock;
    var suffix := FreeSuffix(s.fs.Keys, lock.nonce);
    Vacated(before, s, h, suffix);
    var a, u := CanPrepare(s, h, msg, suffix);
    var b;
    b, t := CanPublish(u, h, msg, suffix);
    LeadsOn(Succ, s, a, u, b, t);
    steps := a + b;
    assert (u.fs - {TempName(lock.nonce, suffix)}) == s.fs;
  }

  lemma Vacated(before: seq<Step>, s: State, h: Id, suffix: string)
    requires Leads(Succ, Init(), before, s) && h in s.clients
    requires forall g :: !Holds(s, g, s.clients[h].lock.name)
    ensures s.clients[h].lock.name !in s.fs
    ensures s.clients[h].lock.name != TempName(s.clients[h].lock.nonce, suffix)
  {
    Reached(before, s);
    assert ClientInv(s.fs, s.clients[h]);
    ValidApart(s.clients[h], s.clients[h].lock.name, suffix);
  }

  /** A holder's Unlock up to its rename. */
  lemma CanMoveOut(s: State, h: Id) returns (steps: seq<Step>, t: State)
    requires h in s.clients && s.clients[h].pc.Idle? && HeldBy(s.fs, s.clients[h].lock)
    requires Vacant(s.fs, Release(s.clients[h].lock))
    ensures Leads(Succ, s, steps, t)
    ensures t.clients == s.clients[h := s.clients[h].(pc := Clearing, holding := None)]
    ensures t.fs == (s.fs - {s.clients[h].lock.name})[Release(s.clients[h].lock) := s.fs[s.clients[h].lock.name]]
  {
    hide ReleaseName, Leads;
    Stays(Succ, s);
    steps, t := Take(Succ, s, [], s, CallUnlock(h));
    steps, t := Take(Succ, s, steps, t, Check(h));
    steps, t := Take(Succ, s, steps, t, RenameOut(h));
  }

  lemma CanEmpty(s: State, h: Id) returns (steps: seq<Step>, t: State)
    requires h in s.clients && s.clients[h].pc.Clearing? && Release(s.clients[h].lock) in s.fs
    ensures Leads(Succ, s, steps, t)
    ensures t == s.(fs := s.fs[Release(s.clients[h].lock) := Dir(None, None)])
  {
    hide ReleaseName, Leads;
    Stays(Succ, s);
    steps, t := Take(Succ, s, [], s, RemoveHeld(h));
    steps, t := Take(Succ, s, steps, t, RemoveMessage(h));
  }

  /** Removing the directory moved out. */
  lemma CanClear(s: State, h: Id) returns (steps: seq<Step>, t: State)
    requires h in s.clients && s.clients[h].pc.Clearing? && Release(s.clients[h].lock) in s.fs
    ensures Leads(Succ, s, steps, t)
    ensures t.clients == s.clients[h := s.clients[h].(pc := Idle(Unlocked))]
    ensures t.fs == s.fs - {Release(s.clients[h].lock)}
  {
    hide ReleaseName, Leads;
    steps, t := CanEmpty(s, h);
    steps, t := Take(Succ, s, steps, t, RemoveDir(h));
    steps, t := Take(Succ, s, steps, t, RemoveEnds(h));
  }

  lemma HolderFacts(before: seq<Step>, s: State, h: Id)
    requires Leads(Succ, Init(), before, s) && h in s.clients && s.clients[h].holding.Some?
    ensures HeldBy(s.fs, s.clients[h].lock) && s.clients[h].lock.name != Release(s.clients[h].lock)
  {
    Reached(before, s);
    assert ClientInv(s.fs, s.clients[h]);
    ValidApart(s.clients[h], s.clients[h].lock.name, "");
  }

  /** If no call fails, a holder releases its lock, provided that its release name is vacant. */
  lemma CanRelease(before: seq<Step>, s: State, h: Id) returns (steps: seq<Step>, t: State)
    requires Leads(Succ, Init(), before, s) && h in s.clients && s.clients[h].pc.Idle? && s.clients[h].holding.Some?
    requires Vacant(s.fs, Release(s.clients[h].lock))
    ensures Leads(Succ, s, steps, t)
    ensures t.clients == s.clients[h := s.clients[h].(pc := Idle(Unlocked), holding := None)]
    ensures t.fs == s.fs - {s.clients[h].lock.name, Release(s.clients[h].lock)}
  {
    hide ReleaseName, Inv, Enabled, Apply, Leads;
    HolderFacts(before, s, h);
    var a, u := CanMoveOut(s, h);
    var b;
    b, t := CanClear(u, h);
    LeadsOn(Succ, s, a, u, b, t);
    steps := a + b;
  }

  /** h holds its lock while its release name is taken by a directory that is not empty. */
  ghost predicate Wedged(s: State, h: Id) {
    h in s.clients && s.clients[h].holding.Some? && !Vacant(s.fs, Release(s.clients[h].lock))
  }

  /** A step of a holder keeps the directory under its release name. */
  lemma OwnReleaseKept(fs: map<string, Dir>, c: Client, step: Step)
    requires EnabledFor(fs, c, step) && !c.pc.Clearing? && !step.RenameOut?
    requires c.lock.name != Release(c.lock) && TempName(c.lock.nonce, SuffixOf(c, step)) != Release(c.lock)
    ensures Same(fs, FsAfter(fs, c, step), Release(c.lock))
  {
    hide TempName, ReleaseName;
  }

  /** A step of any client keeps what is under the release name of d, which its holder d cannot use. */
  lemma ReleaseKept(fs: map<string, Dir>, c: Client, step: Step, d: Client)
    requires EnabledFor(fs, c, step) && ClientInv(fs, c) && ClientInv(fs, d)
    requires c.lock.nonce != d.lock.nonce || (c == d && d.holding.Some? && !Vacant(fs, Release(d.lock)))
    ensures Same(fs, FsAfter(fs, c, step), Release(d.lock))
  {
    hide TempName, ReleaseName, FsAfter, ValidName;
    TempNotRelease(c.lock.nonce, SuffixOf(c, step), d.lock.name, d.lock.nonce);
    ValidApart(d, c.lock.name, "");
    if c.lock.nonce != d.lock.nonce {
      ReleaseNamesDiffer(c.lock.name, c.lock.nonce, d.lock.name, d.lock.nonce);
      StepFrame(fs, c, step, Release(d.lock));
    } else {
      OwnReleaseKept(fs, c, step);
    }
  }

  lemma WedgedStep(s: State, h: Id, step: Step)
    requires Inv(s) && Wedged(s, h) && Enabled(s, step)
    ensures Wedged(Apply(s, step), h)
  {
    hide TempName, ReleaseName, FsAfter, ValidName, TempInv, HeldInv, PcInv;
    if !step.NewLock? {
      assert ClientInv(s.fs, s.clients[step.h]) && ClientInv(s.fs, s.clients[h]);
      ReleaseKept(s.fs, s.clients[step.h], step, s.clients[h]);
    }
  }

  lemma StaysWedged(s: State, h: Id, steps: seq<Step>, t: State)
    requires Inv(s) && Wedged(s, h) && Leads(Succ, s, steps, t)
    ensures Wedged(t, h)
  {
    hide Inv, Wedged, Enabled, Apply;
    var inv := x => Inv(x) && Wedged(x, h);
    forall x, a | inv(x) && Succ(x, a).Some?
      ensures inv(Succ(x, a).value)
    {
      StepInv(x, a);
      WedgedStep(x, h, a);
    }
    Invariant(Succ, inv, s, steps, t);
  }

  /**
   When a held lock can be released at all: exactly if no directory with files
   is left under its release name, as an earlier Unlock leaves one whose
   RemoveAll did not finish.
   */
  lemma ReleasableIff(before: seq<Step>, s: State, h: Id)
    requires Leads(Succ, Init(), before, s) && h in s.clients && s.clients[h].pc.Idle? && s.clients[h].holding.Some?
    ensures Vacant(s.fs, Release(s.clients[h].lock)) <==>
              exists steps, t :: Leads(Succ, s, steps, t) && h in t.clients && t.clients[h].holding == None
  {
    if Vacant(s.fs, Release(s.clients[h].lock)) {
      var steps, t := CanRelease(before, s, h);
    } else {
      Reached(before, s);
      forall steps, t | Leads(Succ, s, steps, t)
        ensures Wedged(t, h)
      {
        StaysWedged(s, h, steps, t);
      }
    }
  }

  lemma EndsEarly(s: State, a: seq<Step>, t: State) returns (b: seq<Step>, u: State)
    requires Leads(Succ, s, a, t) && 0 in t.clients && t.clients[0].pc.Clearing? && Release(t.clients[0].lock) in t.fs
    ensures Leads(Succ, s, b, u) && u == t.(clients := t.clients[0 := t.clients[0].(pc := Idle(UnlockFailed))])
  {
    hide ReleaseName, Leads;
    b, u := Take(Succ, s, a, t, RemoveEnds(0));
  }

  /** A locked lock, unlocked with the removal cut short. */
  lemma CutShort(before: seq<Step>, s: State) returns (steps: seq<Step>, t: State)
    requires Leads(Succ, Init(), before, s) && 0 in s.clients && s.clients[0].pc.Idle? && s.clients[0].holding.Some?
    requires Release(s.clients[0].lock) !in s.fs
    ensures Leads(Succ, Init(), steps, t)
    ensures t.clients == s.clients[0 := s.clients[0].(pc := Idle(UnlockFailed), holding := None)]
    ensures s.clients[0].lock.name in s.fs && s.fs[s.clients[0].lock.name].held.Some?
    ensures t.fs == (s.fs - {s.clients[0].lock.name})[Release(s.clients[0].lock) := s.fs[s.clients[0].lock.name]]
  {
    hide ReleaseName, Leads, Enabled, Apply;
    HolderFacts(before, s, 0);
    var a, u := CanMoveOut(s, 0);
    LeadsOn(Succ, Init(), before, s, a, u);
    steps, t := EndsEarly(Init(), before + a, u);
  }

  lemma LockedOnce(name: string, nonce: Nonce) returns (steps: seq<Step>, s: State)
    requires ValidName(name)
    ensures Leads(Succ, Init(), steps, s) && s.fs == map[name := Published(nonce, "")]
    ensures s.clients == map[0 := Client(Lock(name, nonce), Idle(Locked), Some(""))]
  {
    hide TempName, ReleaseName, ValidName;
    var a, b, t;
    Stays(Succ, Init());
    a, t := Take(Succ, Init(), [], Init(), NewLock(0, name, nonce));
    b, s := CanAcquire(a, t, 0, "");
    LeadsOn(Succ, Init(), a, t, b, s);
    steps := a + b;
  }

  /** A handle and its lock, locked, unlocked with the removal cut short, and locked again: held for good. */
  lemma WedgedReachable(name: string, nonce: Nonce) returns (steps: seq<Step>, s: State)
    requires ValidName(name)
    ensures Leads(Succ, Init(), steps, s) && Wedged(s, 0) && s.clients[0].pc == Idle(Locked)
  {
    var a, t := LockedOnce(name, nonce);
    HolderFacts(a, t, 0);
    hide TempName, ReleaseName, ValidName, Enabled, Apply, Leads;
    var c, u := CutShort(a, t);
    var b;
    b, s := CanAcquire(c, u, 0, "");
    LeadsOn(Succ, Init(), c, u, b, s);
    steps := c + b;
  }
}
