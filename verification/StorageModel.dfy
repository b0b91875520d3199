/**
 filestorage/wrapper.go: one storage made of a metadata store and a raw file
 store, each call of which may fail without effect. The metadata store gives
 out ids it has never given before and adds documents as not yet stored. Calls
 of the wrapper follow one another. What a call does, given which backend
 calls fail, is a pure function here; `FileStorage` has the methods.
 */
module StorageModel {
  import opened Options
  import opened Runs

  type Id = nat
  type Content = seq<int>

  datatype Doc = Doc(size: int, stored: bool)

  /** Documents, raw files, and a bound on the ids given out. */
  datatype State = State(docs: map<Id, Doc>, files: map<Id, Content>, next: Id)

  datatype Result<+T> = Ok(value: T) | NotFound | AlreadyExists | Failed

  /** A call, with the backend calls that fail, should they be made. */
  datatype Event =
    | Add(size: int, file: Option<Content>, id: Id, addMetaFails: bool, addFileFails: bool, setStoredFails: bool,
          undoFails: bool)
    | SetFile(id: Id, data: Content, metaFails: bool, addFileFails: bool, setStoredFails: bool)
    | Get(id: Id, metaFails: bool, readFails: bool)
    | Remove(id: Id, removeFileFails: bool, removeMetaFails: bool)

  function Init(): State {
    State(map[], map[], 0)
  }

  /** The id of a new document has never been used. */
  predicate Possible(s: State, e: Event) {
    e.Add? ==> e.id >= s.next
  }

  // ----- backend calls

  function AddFile(files: map<Id, Content>, id: Id, data: Content, fails: bool): (map<Id, Content>, Result<()>) {
    if fails then (files, Failed)
    else if id in files then (files, AlreadyExists)
    else (files[id := data], Ok(()))
  }

  function RemoveFile(files: map<Id, Content>, id: Id, fails: bool): (map<Id, Content>, Result<()>) {
    if fails then (files, Failed)
    else if id !in files then (files, NotFound)
    else (files - {id}, Ok(()))
  }

  function SetStored(docs: map<Id, Doc>, id: Id, fails: bool): (map<Id, Doc>, Result<()>) {
    if fails then (docs, Failed)
    else if id !in docs then (docs, NotFound)
    else (docs[id := docs[id].(stored := true)], Ok(()))
  }

  function RemoveMetadata(docs: map<Id, Doc>, id: Id, fails: bool): (map<Id, Doc>, Result<()>) {
    if fails then (docs, Failed)
    else if id !in docs then (docs, NotFound)
    else (docs - {id}, Ok(()))
  }

  // ----- the wrapper

  /** addFile: the raw file, then the mark. */
  function StoreFile(s: State, id: Id, data: Content, addFileFails: bool, setStoredFails: bool): (State, Result<()>) {
    var (files, r) := AddFile(s.files, id, data, addFileFails);
    if !r.Ok? then (s.(files := files), r) else
      var (docs, r') := SetStored(s.docs, id, setStoredFails);
      (s.(files := files, docs := docs), r')
  }

  /** What the call returns, with its id or file where it has one. */
  datatype Answer = Added(id: Id) | Got(doc: Doc, data: Content) | Done | Error(why: Result<()>)

  function Call(s: State, e: Event): (State, Answer) {
    match e
    case Add(size, file, id, addMetaFails, addFileFails, setStoredFails, undoFails) =>
      if addMetaFails then (s, Error(Failed)) else
        var t := s.(docs := s.docs[id := Doc(size, false)], next := if id >= s.next then id + 1 else s.next);
        if file.None? then (t, Added(id)) else
          var (u, r) := StoreFile(t, id, file.value, addFileFails, setStoredFails);
          if r.Ok? then (u, Added(id)) else (u.(docs := RemoveMetadata(u.docs, id, undoFails).0), Error(r))
    case SetFile(id, data, metaFails, addFileFails, setStoredFails) =>
      if metaFails then (s, Error(Failed))
      else if id !in s.docs then (s, Error(NotFound))
      else
        var (t, r) := StoreFile(s, id, data, addFileFails, setStoredFails);
        (t, if r.Ok? then Done else Error(r))
    case Get(id, metaFails, readFails) =>
      if metaFails then (s, Error(Failed))
      else if id !in s.docs || !s.docs[id].stored then (s, Error(NotFound))
      else if readFails then (s, Error(Failed))
      else if id !in s.files then (s, Error(NotFound))
      else (s, Got(s.docs[id], s.files[id]))
    case Remove(id, removeFileFails, removeMetaFails) =>
      var (files, r) := RemoveFile(s.files, id, removeFileFails);
      if !r.Ok? && !r.NotFound? then (s.(files := files), Error(r)) else
        var (docs, r') := RemoveMetadata(s.docs, id, removeMetaFails);
        (State(docs, files, s.next), if r'.Ok? then Done else Error(r'))
  }

  /** The transition system whose steps are calls. */
  function Succ(s: State, e: Event): Option<State> {
    if Possible(s, e) then Some(Call(s, e).0) else None
  }

  /** The state after the given calls. */
  function Exec(events: seq<Event>): State {
    if events == [] then Init() else Call(Exec(events[..|events| - 1]), events[|events| - 1]).0
  }

  // ----- how the two stores can disagree

  /** A raw file without a document. */
  predicate Orphan(s: State, id: Id) {
    id in s.files && id !in s.docs
  }

  /** A document marked stored without its raw file. */
  predicate Dangling(s: State, id: Id) {
    id in s.docs && s.docs[id].stored && id !in s.files
  }

  /** Ids from the bound on are in neither store. */
  ghost predicate Bounded(s: State) {
    forall id :: id in s.docs || id in s.files ==> id < s.next
  }

  /** An Add whose SetStored failed and whose undo removed the document only. */
  predicate LeavesOrphan(e: Event, id: Id) {
    && e.Add? && e.id == id && e.file.Some?
    && !e.addMetaFails && !e.addFileFails && e.setStoredFails && !e.undoFails
  }

  predicate TakesFile(e: Event, id: Id) {
    e.Remove? && e.id == id && !e.removeFileFails
  }

  /** A Remove whose RemoveMetadata failed after its RemoveFile did not. */
  predicate LeavesDangling(e: Event, id: Id) {
    TakesFile(e, id) && e.removeMetaFails
  }

  /** Exactly which calls make and unmake a raw file without a document. */
  lemma OrphanStep(s: State, e: Event, id: Id)
    requires Bounded(s) && Possible(s, e)
    ensures Bounded(Call(s, e).0)
    ensures Orphan(Call(s, e).0, id) <==> (Orphan(s, id) && !TakesFile(e, id)) || LeavesOrphan(e, id)
  {
  }

  /** A document marked stored, with its raw file. */
  predicate Whole(s: State, id: Id) {
    id in s.docs && s.docs[id].stored && id in s.files
  }

  /** A SetFile that stores the raw file again, or a Remove that removes the document as well. */
  predicate Mends(e: Event, id: Id) {
    || (e.SetFile? && e.id == id && !e.metaFails && !e.addFileFails)
    || (TakesFile(e, id) && !e.removeMetaFails)
  }

  /** Exactly which calls make and unmake a stored document without its raw file. */
  lemma DanglingStep(s: State, e: Event, id: Id)
    requires Bounded(s) && Possible(s, e)
    ensures Dangling(Call(s, e).0, id) <==> (Dangling(s, id) && !Mends(e, id)) || (LeavesDangling(e, id) && Whole(s, id))
  {
  }

  /** A later event passes the test. */
  ghost predicate Later(events: seq<Event>, i: nat, test: Event -> bool) {
    exists j :: i < j < |events| && test(events[j])
  }

  lemma LaterSnoc(before: seq<Event>, e: Event, i: nat, test: Event -> bool)
    requires i < |before|
    ensures Later(before + [e], i, test) <==> Later(before, i, test) || test(e)
  {
    var events := before + [e];
    if j :| i < j < |before| && test(before[j]) {
      assert test(events[j]);
    }
    if test(e) {
      assert test(events[|before|]);
    }
    if j :| i < j < |events| && test(events[j]) {
      assert j < |before| ==> test(before[j]);
    }
  }

  /** The Add at i left its raw file, and no later Remove took it away. */
  ghost predicate OrphanedBy(events: seq<Event>, i: nat, id: Id) {
    i < |events| && LeavesOrphan(events[i], id) && !Later(events, i, e => TakesFile(e, id))
  }

  /** The Remove at i took the raw file of a whole document and left the document, and nothing mended that later. */
  ghost predicate DanglesFrom(events: seq<Event>, i: nat, id: Id) {
    && i < |events| && LeavesDangling(events[i], id) && Whole(Exec(events[..i]), id)
    && !Later(events, i, e => Mends(e, id))
  }

  lemma NothingAtFirst(id: Id)
    ensures Bounded(Init()) && !Orphan(Init(), id) && !Dangling(Init(), id)
  {
  }

  lemma {:induction false} RunFacts(events: seq<Event>, s: State)
    requires Leads(Succ, Init(), events, s)
    ensures s == Exec(events) && Bounded(s)
    decreases |events|
  {
    hide Call;
    if events == [] {
      NothingAtFirst(0);
    } else {
      var mid := BeforeLast(Succ, Init(), events, s);
      RunFacts(events[..|events| - 1], mid);
      OrphanStep(mid, events[|events| - 1], 0);
    }
  }

  lemma OrphanedSnoc(before: seq<Event>, e: Event, i: nat, id: Id)
    ensures OrphanedBy(before + [e], i, id) <==>
              (OrphanedBy(before, i, id) && !TakesFile(e, id)) || (i == |before| && LeavesOrphan(e, id))
  {
    if i < |before| {
      LaterSnoc(before, e, i, x => TakesFile(x, id));
    }
  }

  lemma DanglesSnoc(before: seq<Event>, e: Event, i: nat, id: Id)
    ensures DanglesFrom(before + [e], i, id) <==>
              (DanglesFrom(before, i, id) && !Mends(e, id))
              || (i == |before| && LeavesDangling(e, id) && Whole(Exec(before), id))
  {
    hide Exec, Whole, LeavesDangling;
    if i <= |before| {
      assert (before + [e])[..i] == before[..i];
    }
    if i < |before| {
      LaterSnoc(before, e, i, x => Mends(x, id));
    } else {
      assert before[..|before|] == before;
    }
  }

  /**
   Over every run, a raw file without a document is there exactly if some Add
   whose SetStored failed left it and no later Remove has taken it away.
   */
  lemma {:induction false} OrphansExplained(events: seq<Event>, s: State, id: Id)
    requires Leads(Succ, Init(), events, s)
    ensures Orphan(s, id) <==> exists i: nat :: OrphanedBy(events, i, id)
    decreases |events|
  {
    hide LeavesOrphan, TakesFile, Call, Orphan;
    if events == [] {
      NothingAtFirst(id);
    } else {
      var before, e := events[..|events| - 1], events[|events| - 1];
      var mid := BeforeLast(Succ, Init(), events, s);
      OrphansExplained(before, mid, id);
      RunFacts(before, mid);
      OrphanStep(mid, e, id);
      forall i: nat
        ensures OrphanedBy(events, i, id) <==>
                  (OrphanedBy(before, i, id) && !TakesFile(e, id)) || (i == |before| && LeavesOrphan(e, id))
      {
        OrphanedSnoc(before, e, i, id);
        assert before + [e] == events;
      }
      hide OrphanedBy;
      assert LeavesOrphan(e, id) ==> OrphanedBy(events, |before|, id);
    }
  }

  /**
   Over every run, a stored document without its raw file is there exactly if
   some Remove whose RemoveMetadata failed took the file of a whole document
   and no later call has mended that.
   */
  lemma {:induction false} DanglingExplained(events: seq<Event>, s: State, id: Id)
    requires Leads(Succ, Init(), events, s)
    ensures Dangling(s, id) <==> exists i: nat :: DanglesFrom(events, i, id)
    decreases |events|
  {
    hide LeavesDangling, Mends, Call, Dangling, Whole, Exec;
    if events == [] {
      NothingAtFirst(id);
    } else {
      var before, e := events[..|events| - 1], events[|events| - 1];
      var mid := BeforeLast(Succ, Init(), events, s);
      DanglingExplained(before, mid, id);
      RunFacts(before, mid);
      DanglingStep(mid, e, id);
      forall i: nat
        ensures DanglesFrom(events, i, id) <==>
                  (DanglesFrom(before, i, id) && !Mends(e, id))
                  || (i == |before| && LeavesDangling(e, id) && Whole(mid, id))
      {
        DanglesSnoc(before, e, i, id);
        assert before + [e] == events;
      }
      hide DanglesFrom;
      assert LeavesDangling(e, id) && Whole(mid, id) ==> DanglesFrom(events, |before|, id);
    }
  }

  predicate NoFaults(e: Event) {
    match e
    case Add(_, _, _, f1, f2, f3, f4) => !f1 && !f2 && !f3 && !f4
    case SetFile(_, _, f1, f2, f3) => !f1 && !f2 && !f3
    case Get(_, f1, f2) => !f1 && !f2
    case Remove(_, f1, f2) => !f1 && !f2
  }

  /** While no backend call has failed, the documents marked stored are those that have a raw file. */
  lemma {:induction false} AgreeWithoutFaults(s: State, events: seq<Event>, t: State)
    requires Bounded(s) && (forall id :: !Orphan(s, id) && !Dangling(s, id))
    requires forall id :: id in s.docs && id in s.files ==> s.docs[id].stored
    requires Leads(Succ, s, events, t) && forall i :: 0 <= i < |events| ==> NoFaults(events[i])
    ensures forall id :: id in t.files <==> id in t.docs && t.docs[id].stored
    decreases |events|
  {
    if events == [] {
      forall id
        ensures id in t.files <==> id in t.docs && t.docs[id].stored
      {
        assert !Orphan(s, id) && !Dangling(s, id);
      }
    } else {
      var s', e := Call(s, events[0]).0, events[0];
      assert NoFaults(e);
      forall id
        ensures !Orphan(s', id) && !Dangling(s', id) && (id in s'.docs && id in s'.files ==> s'.docs[id].stored)
      {
        assert !Orphan(s, id) && !Dangling(s, id);
        OrphanStep(s, e, id);
        DanglingStep(s, e, id);
      }
      OrphanStep(s, e, 0);
      AgreeWithoutFaults(s', events[1..], t);
    }
  }

  // ----- what callers are promised

  /**
   When a failed Add leaves neither document nor file behind, as its comment
   says it always does: exactly if nothing was added, or only the file was not
   and the undo succeeded.
   */
  lemma FailedAddLeavesNothing(s: State, e: Event)
    requires Bounded(s) && Possible(s, e) && e.Add? && Call(s, e).1.Error?
    ensures var t := Call(s, e).0;
            (e.id !in t.docs && e.id !in t.files) <==> e.addMetaFails || (e.addFileFails && !e.undoFails)
  {
  }

  /** The comment on Add fails on this input: an error is returned and the raw file stays. */
  lemma FailedAddLeavesFile(data: Content)
    ensures var e := Add(|data|, Some(data), 0, false, false, true, false);
            Call(Init(), e).1.Error? && Orphan(Call(Init(), e).0, 0)
  {
  }

  /** id is stored with this document and content. */
  predicate Stored(s: State, id: Id, size: int, data: Content) {
    id in s.docs && s.docs[id] == Doc(size, true) && id in s.files && s.files[id] == data
  }

  lemma StoredStep(s: State, e: Event, id: Id, size: int, data: Content)
    requires Bounded(s) && Possible(s, e) && Stored(s, id, size, data) && !(e.Remove? && e.id == id)
    ensures Stored(Call(s, e).0, id, size, data)
  {
  }

  lemma {:induction false} StaysStored(s: State, events: seq<Event>, t: State, id: Id, size: int, data: Content)
    requires Bounded(s) && Stored(s, id, size, data) && Leads(Succ, s, events, t)
    requires forall i :: 0 <= i < |events| ==> !(events[i].Remove? && events[i].id == id)
    ensures Stored(t, id, size, data)
    decreases |events|
  {
    hide Call, Stored;
    if events == [] {
    } else {
      StoredStep(s, events[0], id, size, data);
      OrphanStep(s, events[0], id);
      StaysStored(Call(s, events[0]).0, events[1..], t, id, size, data);
    }
  }

  /**
   What Add answers: the id of a new document, stored with the file if there is
   one, and nothing else changed; an error exactly if a backend call failed.
   */
  lemma AddAnswers(s: State, e: Event)
    requires Bounded(s) && Possible(s, e) && e.Add?
    ensures var (t, a) := Call(s, e);
            && (a.Error? <==> e.addMetaFails || (e.file.Some? && (e.addFileFails || e.setStoredFails)))
            && (!a.Error? ==>
                  && a.Added? && a.id !in s.docs && a.id !in s.files
                  && t.docs == s.docs[a.id := Doc(e.size, e.file.Some?)]
                  && t.files == if e.file.Some? then s.files[a.id := e.file.value] else s.files)
  {
  }

  /** What SetFile answers, and when it changes nothing. */
  lemma SetFileAnswers(s: State, e: Event)
    requires e.SetFile?
    ensures var (t, a) := Call(s, e);
            && (a == Done <==> e.id in s.docs && e.id !in s.files && !e.metaFails && !e.addFileFails && !e.setStoredFails)
            && (a == Done ==> Stored(t, e.id, s.docs[e.id].size, e.data))
            && (a == Error(NotFound) <==> e.id !in s.docs && !e.metaFails)
            && (a == Error(AlreadyExists) <==> e.id in s.docs && e.id in s.files && !e.metaFails && !e.addFileFails)
            && (a == Done || a.Error?) && (a.Error? && !e.setStoredFails ==> t == s)
  {
  }

  /** What Get answers: the document and the file of a stored id, and that it is not found exactly if it is not whole. */
  lemma GetAnswers(s: State, id: Id)
    ensures var (t, a) := Call(s, Get(id, false, false));
            t == s && a == if Whole(s, id) then Got(s.docs[id], s.files[id]) else Error(NotFound)
    ensures forall metaFails, readFails ::
              var (t, a) := Call(s, Get(id, metaFails, readFails));
              t == s && (a.Got? ==> a == Got(s.docs[id], s.files[id]) && Whole(s, id))
  {
  }

  /** What Remove answers, and what it removes. */
  lemma RemoveAnswers(s: State, e: Event)
    requires e.Remove?
    ensures var (t, a) := Call(s, e);
            && t.files == (if e.removeFileFails then s.files else s.files - {e.id})
            && t.docs == (if e.removeFileFails || e.removeMetaFails then s.docs else s.docs - {e.id})
            && (a == Done <==> e.id in s.docs && !e.removeFileFails && !e.removeMetaFails)
            && (a == Error(NotFound) <==> e.id !in s.docs && !e.removeFileFails && !e.removeMetaFails)
            && (a == Done || a.Error?)
  {
  }

  /**
   Round trip: under the id a successful Add answered, Get returns what it
   stored, after any calls whatever except a Remove of that id, whichever of
   them fail.
   */
  lemma AddThenGet(before: seq<Event>, s: State, e: Event, id: Id, events: seq<Event>, t: State)
    requires Leads(Succ, Init(), before, s) && Possible(s, e) && e.Add? && e.file.Some? && Call(s, e).1 == Added(id)
    requires Leads(Succ, Call(s, e).0, events, t)
    requires forall i :: 0 <= i < |events| ==> !(events[i].Remove? && events[i].id == id)
    ensures Call(t, Get(id, false, false)).1 == Got(Doc(e.size, true), e.file.value)
  {
    RunFacts(before, s);
    OrphanStep(s, e, id);
    AddAnswers(s, e);
    StaysStored(Call(s, e).0, events, t, id, e.size, e.file.value);
  }

  lemma NextGrows(s: State, e: Event)
    requires Possible(s, e)
    ensures Call(s, e).0.next >= s.next
    ensures Call(s, e).1.Added? ==> s.next <= Call(s, e).1.id < Call(s, e).0.next
  {
  }

  /** Ids answered are below the bound. */
  lemma {:induction false} IdsBounded(events: seq<Event>, s: State, i: nat, id: Id)
    requires Leads(Succ, Init(), events, s) && i < |events|
    requires Call(Exec(events[..i]), events[i]).1 == Added(id)
    ensures id < s.next
    decreases |events|
  {
    hide Call;
    var n := |events| - 1;
    var mid := BeforeLast(Succ, Init(), events, s);
    RunFacts(events[..n], mid);
    NextGrows(mid, events[n]);
    if i == n {
    } else {
      assert events[..n][..i] == events[..i];
      IdsBounded(events[..n], mid, i, id);
    }
  }

  /** No id is answered twice. */
  lemma AddedIdIsNew(before: seq<Event>, s: State, e: Event, id: Id, i: nat)
    requires Leads(Succ, Init(), before, s) && Possible(s, e) && e.Add? && Call(s, e).1 == Added(id)
    requires i < |before|
    ensures Call(Exec(before[..i]), before[i]).1 != Added(id)
  {
    hide Call;
    NextGrows(s, e);
    if Call(Exec(before[..i]), before[i]).1 == Added(id) {
      IdsBounded(before, s, i, id);
    }
  }

  /** Raw file present, mark missing: what a SetFile or an Add leaves whose SetStored failed. */
  predicate HalfStored(s: State, id: Id) {
    id in s.docs && !s.docs[id].stored && id in s.files
  }

  /** A half-stored file can be neither read nor stored again; only a Remove changes it. */
  lemma HalfStoredStep(s: State, e: Event, id: Id)
    requires Bounded(s) && Possible(s, e) && HalfStored(s, id) && e.id == id
    ensures !e.Remove? ==> Call(s, e).1.Error? && HalfStored(Call(s, e).0, id)
    ensures e.Remove? ==> (HalfStored(Call(s, e).0, id) <==> e.removeFileFails)
  {
  }
}
