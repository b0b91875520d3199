/** The methods of filestorage/wrapper.go, shown to do what `StorageModel` says. */
module FileStorage {
  import opened Options
  import opened StorageModel

  class Meta {
    var docs: map<Id, Doc>
    var next: Id

    constructor ()
      ensures docs == map[] && next == 0
    {
      docs, next := map[], 0;
    }

    method Metadata(id: Id) returns (r: Result<Doc>, fails: bool)
      ensures r == if fails then Failed else if id in docs then Ok(docs[id]) else NotFound
    {
      fails := *;
      r := if fails then Failed else if id in docs then Ok(docs[id]) else NotFound;
    }

    method AddMetadata(size: int) returns (r: Result<Id>)
      modifies this
      ensures r.Ok? ==> r.value >= old(next) && docs == old(docs)[r.value := Doc(size, false)] && next == r.value + 1
      ensures !r.Ok? ==> r == Failed && docs == old(docs) && next == old(next)
    {
      if * {
        return Failed;
      }
      var id: Id :| id >= next;
      docs, next := docs[id := Doc(size, false)], id + 1;
      return Ok(id);
    }

    method RemoveMetadata(id: Id) returns (r: Result<()>, fails: bool)
      modifies `docs
      ensures (docs, r) == StorageModel.RemoveMetadata(old(docs), id, fails)
    {
      fails := *;
      if fails {
        return Failed, fails;
      }
      if id !in docs {
        return NotFound, fails;
      }
      docs := docs - {id};
      r := Ok(());
    }

    method SetStored(id: Id) returns (r: Result<()>, fails: bool)
      modifies `docs
      ensures (docs, r) == StorageModel.SetStored(old(docs), id, fails)
    {
      fails := *;
      if fails {
        return Failed, fails;
      }
      if id !in docs {
        return NotFound, fails;
      }
      docs := docs[id := docs[id].(stored := true)];
      r := Ok(());
    }
  }

  class Raw {
    var files: map<Id, Content>

    constructor ()
      ensures files == map[]
    {
      files := map[];
    }

    method File(id: Id) returns (r: Result<Content>, fails: bool)
      ensures r == if fails then Failed else if id in files then Ok(files[id]) else NotFound
    {
      fails := *;
      r := if fails then Failed else if id in files then Ok(files[id]) else NotFound;
    }

    method AddFile(id: Id, data: Content)
      returns (r: Result<()>, fails: bool)
      modifies this
      ensures (files, r) == StorageModel.AddFile(old(files), id, data, fails)
    {
      fails := *;
      if fails {
        return Failed, fails;
      }
      if id in files {
        return AlreadyExists, fails;
      }
      files := files[id := data];
      r := Ok(());
    }

    method RemoveFile(id: Id) returns (r: Result<()>, fails: bool)
      modifies this
      ensures (files, r) == StorageModel.RemoveFile(old(files), id, fails)
    {
      fails := *;
      if fails {
        return Failed, fails;
      }
      if id !in files {
        return NotFound, fails;
      }
      files := files - {id};
      r := Ok(());
    }
  }

  class Storage {
    const meta: Meta
    const raw: Raw

    ghost function Contents(): State
      reads meta, raw
    {
      State(meta.docs, raw.files, meta.next)
    }

    constructor (meta: Meta, raw: Raw)
      ensures this.meta == meta && this.raw == raw
    {
      this.meta, this.raw := meta, raw;
    }

    method StoreFile(id: Id, data: Content) returns (r: Result<()>, ghost addFileFails: bool, ghost setStoredFails: bool)
      modifies meta, raw
      ensures (Contents(), r) == StorageModel.StoreFile(old(Contents()), id, data, addFileFails, setStoredFails)
    {
      var f;
      r, f := raw.AddFile(id, data);
      addFileFails, setStoredFails := f, false;
      if !r.Ok? {
        return;
      }
      r, f := meta.SetStored(id);
      setStoredFails := f;
    }

    method Add(size: int, file: Option<Content>) returns (a: Answer, ghost e: Event)
      modifies meta, raw
      ensures e.Add? && e.size == size && e.file == file && Possible(old(Contents()), e)
      ensures (Contents(), a) == Call(old(Contents()), e)
      ensures a.Added? ==> a.id >= old(meta.next) && meta.docs == old(meta.docs)[a.id := Doc(size, file.Some?)]
      ensures a.Added? ==> raw.files == if file.Some? then old(raw.files)[a.id := file.value] else old(raw.files)
    {
      var added := meta.AddMetadata(size);
      if !added.Ok? {
        e := Event.Add(size, file, meta.next, true, false, false, false);
        return Error(Failed), e;
      }
      var id := added.value;
      e := Event.Add(size, file, id, false, false, false, false);
      a := Added(id);
      if file.Some? {
        ghost var f1, f2;
        var r;
        r, f1, f2 := StoreFile(id, file.value);
        e := Event.Add(size, file, id, false, f1, f2, false);
        if !r.Ok? {
          var _, f3 := meta.RemoveMetadata(id);
          e := Event.Add(size, file, id, false, f1, f2, f3);
          a := Error(r);
        }
      }
    }

    method SetFile(id: Id, data: Content) returns (a: Answer, ghost e: Event)
      modifies meta, raw
      ensures e.SetFile? && e.id == id && e.data == data && (Contents(), a) == Call(old(Contents()), e)
    {
      var doc, f := meta.Metadata(id);
      e := Event.SetFile(id, data, f, false, false);
      if !doc.Ok? {
        return Error(if f then Failed else NotFound), e;
      }
      ghost var f1, f2;
      var r;
      r, f1, f2 := StoreFile(id, data);
      e := Event.SetFile(id, data, f, f1, f2);
      a := if r.Ok? then Done else Error(r);
    }

    method Get(id: Id) returns (a: Answer, ghost e: Event)
      ensures e.Get? && e.id == id && (Contents(), a) == Call(old(Contents()), e)
    {
      var doc, f := meta.Metadata(id);
      e := Event.Get(id, f, false);
      if !doc.Ok? {
        return Error(if f then Failed else NotFound), e;
      }
      if !doc.value.stored {
        return Error(NotFound), e;
      }
      var data, g := raw.File(id);
      e := Event.Get(id, f, g);
      if !data.Ok? {
        return Error(if g then Failed else NotFound), e;
      }
      a := Got(doc.value, data.value);
    }

    method Remove(id: Id) returns (a: Answer, ghost e: Event)
      modifies meta, raw
      ensures e.Remove? && e.id == id && (Contents(), a) == Call(old(Contents()), e)
    {
      var r, f := raw.RemoveFile(id);
      e := Event.Remove(id, f, false);
      if !r.Ok? && !r.NotFound? {
        return Error(r), e;
      }
      var g;
      r, g := meta.RemoveMetadata(id);
      e := Event.Remove(id, f, g);
      a := if r.Ok? then Done else Error(r);
    }
  }
}
