/**
 A file that grows while it is read, as seen through one handle.

 `all` is every byte that will ever have been appended and `size` how many of
 them have arrived. Each call first lets any number of further bytes arrive,
 so a proof about these methods holds for every interleaving of appends with
 calls. Calls may fail; a failed call leaves the offset alone and is counted.
 */
module Files {
  import opened Lines

  datatype ReadResult = Data(bytes: seq<byte>) | Eof | ReadFailed

  class File {
    const all: seq<byte>
    var size: nat
    var pos: nat
    var faults: nat

    ghost predicate Valid()
      reads this
    {
      pos <= size <= |all|
    }

    constructor (all: seq<byte>, size: nat)
      requires size <= |all|
      ensures Valid() && this.all == all && this.size == size && pos == 0 && faults == 0
    {
      this.all, this.size, pos, faults := all, size, 0, 0;
    }

    method Grow()
      requires Valid()
      modifies `size
      ensures Valid() && size >= old(size)
    {
      var n: nat :| size <= n <= |all|;
      size := n;
    }

    method Fail()
      modifies `faults
      ensures faults == old(faults) + 1
    {
      faults := faults + 1;
    }

    method SeekEnd() returns (ok: bool)
      requires Valid()
      modifies this
      ensures Valid() && size >= old(size)
      ensures ok ==> pos == size && faults == old(faults)
      ensures !ok ==> pos == old(pos) && faults == old(faults) + 1
    {
      Grow();
      if * {
        Fail();
        return false;
      }
      pos := size;
      return true;
    }

    method SeekTo(offset: nat) returns (ok: bool)
      requires Valid() && offset <= size
      modifies this
      ensures Valid() && size >= old(size)
      ensures ok ==> pos == offset && faults == old(faults)
      ensures !ok ==> pos == old(pos) && faults == old(faults) + 1
    {
      Grow();
      if * {
        Fail();
        return false;
      }
      pos := offset;
      return true;
    }

    /** Seeks n bytes back from the current offset. */
    method SeekBack(n: nat) returns (ok: bool)
      requires Valid() && n <= pos
      modifies this
      ensures Valid() && size >= old(size)
      ensures ok ==> pos == old(pos) - n && faults == old(faults)
      ensures !ok ==> pos == old(pos) && faults == old(faults) + 1
    {
      ok := SeekTo(pos - n);
    }

    /** Fills the first n bytes of buffer, or fails. */
    method ReadFull(buffer: array<byte>, n: nat) returns (ok: bool)
      requires Valid() && pos + n <= size && n <= buffer.Length
      modifies this, buffer
      ensures Valid() && size >= old(size)
      ensures buffer[n..] == old(buffer[n..])
      ensures ok ==> pos == old(pos) + n && faults == old(faults)
                     && buffer[..n] == all[old(pos)..old(pos) + n]
      ensures !ok ==> faults == old(faults) + 1
    {
      Grow();
      if * {
        Fail();
        return false;
      }
      forall i | 0 <= i < n {
        buffer[i] := all[pos + i];
      }
      pos := pos + n;
      return true;
    }

    /** Reads between 1 and max bytes, or reports end of file. */
    method Read(max: nat) returns (r: ReadResult)
      requires Valid() && max >= 1
      modifies this
      ensures Valid() && size >= old(size)
      ensures r.ReadFailed? ==> pos == old(pos) && faults == old(faults) + 1
      ensures !r.ReadFailed? ==> faults == old(faults)
      ensures r.Eof? ==> pos == old(pos) == size
      ensures r.Data? ==> old(pos) < pos <= old(pos) + max && r.bytes == all[old(pos)..pos]
    {
      Grow();
      if * {
        Fail();
        return ReadFailed;
      }
      if pos == size {
        return Eof;
      }
      var n: nat :| 1 <= n <= max && pos + n <= size;
      pos := pos + n;
      return Data(all[pos - n..pos]);
    }
  }
}
