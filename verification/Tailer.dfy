/**
 The polling half of tailer/tailer.go: a buffered reader over a growing file,
 `readLine`, which joins lines longer than the buffer and steps back over an
 unfinished one, and the loop that copies accepted lines to a buffered writer.
 */
module Tailer {
  import opened Lines
  import opened Files
  import Seek

  datatype Error = Nil | EndOfFile | BufferFull | Failed | WriteFailed

  method FirstIndex(s: seq<byte>) returns (k: int)
    ensures -1 <= k < |s|
    ensures if k == -1 then NoNewline(s) else IsLine(s[..k + 1])
  {
    k := 0;
    while k < |s|
      invariant 0 <= k <= |s| && NoNewline(s[..k])
    {
      if s[k] == NEWLINE {
        assert s[..k + 1] == s[..k] + [NEWLINE];
        IsLineOf(s[..k]);
        return;
      }
      assert s[..k + 1] == s[..k] + [s[k]];
      k := k + 1;
    }
    assert s[..k] == s;
    k := -1;
  }

  /** bufio.Reader: `window` is what has been read from the file and not yet consumed. */
  class Reader {
    const file: File
    const capacity: nat
    var window: seq<byte>

    ghost predicate Valid()
      reads this, file
    {
      && file.Valid()
      && capacity >= 1
      && |window| <= capacity && |window| <= file.pos
      && window == file.all[file.pos - |window|..file.pos]
    }

    /** The offset of the next byte to be consumed. */
    ghost function Offset(): (o: nat)
      requires Valid()
      reads this, file
      ensures o <= file.size
    {
      file.pos - |window|
    }

    constructor (file: File, capacity: nat)
      requires file.Valid() && capacity >= 1
      ensures Valid() && this.file == file && this.capacity == capacity && Offset() == file.pos
    {
      this.file, this.capacity, window := file, capacity, [];
    }

    /** Consumes the first n bytes of the window. */
    method Take(n: nat) returns (slice: seq<byte>)
      requires Valid() && n <= |window|
      modifies this
      ensures Valid() && Offset() == old(Offset()) + n && slice == file.all[old(Offset())..Offset()]
      ensures slice == old(window)[..n] && window == old(window)[n..]
    {
      slice, window := window[..n], window[n..];
    }

    /** Reads more of the file into the window. */
    method Fill() returns (r: ReadResult)
      requires Valid() && |window| < capacity
      modifies this, file
      ensures Valid() && Offset() == old(Offset()) && file.size >= old(file.size)
      ensures file.faults == old(file.faults) + if r.ReadFailed? then 1 else 0
      ensures r.Data? ==> file.pos > old(file.pos)
      ensures !r.Data? ==> window == old(window)
      ensures r.Eof? ==> file.pos == file.size
    {
      r := file.Read(capacity - |window|);
      if r.Data? {
        window := window + r.bytes;
      }
    }

    /** Consumes up to and including the next newline, or what there is before an error. */
    method ReadSlice() returns (slice: seq<byte>, err: Error)
      requires Valid()
      modifies this, file
      ensures Valid() && file.size >= old(file.size)
      ensures Offset() == old(Offset()) + |slice| && slice == file.all[old(Offset())..Offset()]
      ensures if err == Nil then IsLine(slice) else NoNewline(slice)
      ensures err == BufferFull ==> slice != []
      ensures err != WriteFailed
      ensures err == EndOfFile ==> window == [] && file.pos == file.size
      ensures file.faults == old(file.faults) + if err == Failed then 1 else 0
    {
      hide IsLine, NoNewline;
      while true
        invariant Valid() && Offset() == old(Offset()) && file.size >= old(file.size)
        invariant file.faults == old(file.faults)
        decreases |file.all| - file.pos
      {
        var k := FirstIndex(window);
        if k >= 0 {
          slice := Take(k + 1);
          return slice, Nil;
        }
        assert window[..|window|] == window;
        if |window| >= capacity {
          slice := Take(|window|);
          return slice, BufferFull;
        }
        var r := Fill();
        if !r.Data? {
          slice := Take(|window|);
          return slice, if r.Eof? then EndOfFile else Failed;
        }
      }
    }
  }

  /** bufio.Writer: what has reached the underlying writer, what is still buffered, and how many calls failed. */
  class Writer {
    var delivered: seq<byte>
    var buffered: seq<byte>
    var faults: nat

    ghost function Contents(): seq<byte>
      reads this
    {
      delivered + buffered
    }

    constructor ()
      ensures delivered == [] && buffered == [] && faults == 0
    {
      delivered, buffered, faults := [], [], 0;
    }

    /** Buffers p; any part of the buffer may be passed on. */
    method Write(p: seq<byte>) returns (ok: bool)
      modifies this
      ensures ok ==> Contents() == old(Contents()) + p
      ensures faults == old(faults) + if ok then 0 else 1
    {
      if * {
        faults := faults + 1;
        return false;
      }
      var pending := buffered + p;
      var n: nat :| n <= |pending|;
      delivered, buffered := delivered + pending[..n], pending[n..];
      assert pending[..n] + pending[n..] == pending;
      return true;
    }

    method Flush() returns (ok: bool)
      modifies this
      ensures ok ==> buffered == [] && delivered == old(Contents())
      ensures faults == old(faults) + if ok then 0 else 1
    {
      if * {
        faults := faults + 1;
        return false;
      }
      delivered, buffered := delivered + buffered, [];
      return true;
    }
  }

  // ----- what consuming part of the file emits

  /** From boundary o to boundary cur, exactly `lines` are accepted. */
  ghost predicate Emits(all: seq<byte>, filter: Filter, o: nat, cur: nat, lines: seq<seq<byte>>) {
    && o <= cur <= |all|
    && AtBoundary(all[o..cur])
    && Accepted(filter, all[o..cur]) == lines
  }

  lemma EmitsNothing(all: seq<byte>, filter: Filter, o: nat)
    requires o <= |all|
    ensures Emits(all, filter, o, o, [])
  {
  }

  lemma EmitsMore(all: seq<byte>, filter: Filter, o: nat, mid: nat, cur: nat,
                  a: seq<seq<byte>>, b: seq<seq<byte>>)
    requires Emits(all, filter, o, mid, a) && Emits(all, filter, mid, cur, b)
    ensures Emits(all, filter, o, cur, a + b)
  {
    hide SplitLines, Select;
    AcceptedAppend(filter, all[o..mid], all[mid..cur]);
    assert all[o..mid] + all[mid..cur] == all[o..cur];
  }

  lemma EmitsLine(all: seq<byte>, filter: Filter, o: nat, cur: nat)
    requires o <= cur <= |all| && IsLine(all[o..cur])
    ensures Emits(all, filter, o, cur, if Accepts(filter, all[o..cur]) then [all[o..cur]] else [])
  {
    hide SplitLines, Select;
    AcceptedLine(filter, all[o..cur]);
  }

  /** One more line after others that were all rejected. */
  lemma EmitsNext(all: seq<byte>, filter: Filter, o: nat, mid: nat, cur: nat)
    requires Emits(all, filter, o, mid, []) && mid <= cur <= |all| && IsLine(all[mid..cur])
    ensures Emits(all, filter, o, cur, if Accepts(filter, all[mid..cur]) then [all[mid..cur]] else [])
  {
    EmitsLine(all, filter, mid, cur);
    var lines := if Accepts(filter, all[mid..cur]) then [all[mid..cur]] else [];
    EmitsMore(all, filter, o, mid, cur, [], lines);
    assert [] + lines == lines;
  }

  /** An unfinished last line emits nothing. */
  lemma EmitsToEnd(all: seq<byte>, filter: Filter, o: nat, cur: nat, end: nat, lines: seq<seq<byte>>)
    requires Emits(all, filter, o, cur, lines) && cur <= end <= |all| && NoNewline(all[cur..end])
    ensures Accepted(filter, all[o..end]) == lines
  {
    hide SplitLines, Select;
    TerminatedTail(all[o..cur], all[cur..end]);
    assert all[o..cur] + all[cur..end] == all[o..end];
  }

  /** What is emitted is what the filter lets through. */
  lemma EmitsChosen(all: seq<byte>, filter: Filter, o: nat, cur: nat, end: nat, lines: seq<seq<byte>>)
    requires Emits(all, filter, o, cur, lines) && cur <= end <= |all| && NoNewline(all[cur..end])
    ensures Chosen(filter, Terminated(all[o..end]), lines)
  {
    EmitsToEnd(all, filter, o, cur, end, lines);
    AcceptedChosen(filter, all[o..end]);
  }

  lemma PieceJoins(all: seq<byte>, o: nat, mid: nat, cur: nat)
    requires o <= mid <= cur <= |all| && NoNewline(all[o..mid])
    ensures all[o..mid] + all[mid..cur] == all[o..cur]
    ensures IsLine(all[mid..cur]) ==> IsLine(all[o..cur])
    ensures NoNewline(all[mid..cur]) ==> NoNewline(all[o..cur])
  {
    assert all[o..mid] + all[mid..cur] == all[o..cur];
    if IsLine(all[mid..cur]) {
      var body := all[mid..cur][..cur - mid - 1];
      assert NoNewline(all[o..mid] + body);
      IsLineOf(all[o..mid] + body);
      assert all[o..mid] + body + [NEWLINE] == all[o..cur];
    }
  }

  class Tailer {
    const reader: Reader
    const writer: Writer
    const filter: Filter
    ghost const start: nat

    /** The writer has been given exactly the accepted lines consumed since the start. */
    ghost predicate Valid()
      reads this, reader, reader.file, writer
    {
      && reader.Valid()
      && start <= reader.Offset()
      && AtBoundary(reader.file.all[start..reader.Offset()])
      && writer.Contents() == Flatten(Accepted(filter, reader.file.all[start..reader.Offset()]))
    }

    constructor (file: File, filter: Filter, bufferSize: nat)
      requires file.Valid() && bufferSize >= 1
      ensures Valid() && fresh(reader) && fresh(writer) && reader.file == file && start == file.pos
      ensures this.filter == filter && writer.delivered == [] && writer.faults == 0
    {
      reader := new Reader(file, bufferSize);
      writer := new Writer();
      this.filter, start := filter, file.pos;
    }

    /** The next line, or what there is before an error, joining pieces if it is longer than the buffer. */
    method ReadPiece() returns (line: seq<byte>, err: Error)
      requires reader.Valid()
      modifies reader, reader.file
      ensures reader.Valid() && reader.file.size >= old(reader.file.size)
      ensures reader.Offset() == old(reader.Offset()) + |line|
      ensures line == reader.file.all[old(reader.Offset())..reader.Offset()]
      ensures err != BufferFull && err != WriteFailed
      ensures if err == Nil then line != [] && IsLine(line) else NoNewline(line)
      ensures err == EndOfFile ==> reader.window == [] && reader.file.pos == reader.file.size
      ensures reader.file.faults == old(reader.file.faults) + if err == Failed then 1 else 0
    {
      hide IsLine, NoNewline;
      ghost var o := reader.Offset();
      line, err := reader.ReadSlice();
      while err == BufferFull
        invariant reader.Valid() && reader.file.size >= old(reader.file.size)
        invariant reader.Offset() == o + |line| && line == reader.file.all[o..reader.Offset()]
        invariant err != WriteFailed && if err == Nil then IsLine(line) else NoNewline(line)
        invariant err == EndOfFile ==> reader.window == [] && reader.file.pos == reader.file.size
        invariant reader.file.faults == old(reader.file.faults) + if err == Failed then 1 else 0
        decreases err == BufferFull, |reader.file.all| - reader.Offset()
      {
        ghost var mid := reader.Offset();
        var slice;
        slice, err := reader.ReadSlice();
        PieceJoins(reader.file.all, o, mid, reader.Offset());
        line := line + slice;
      }
      if err == Nil {
        LineProgress(line);
      }
    }

    /** Back over an unfinished line after end of file. */
    method StepBack(line: seq<byte>) returns (ghost lost: bool)
      requires reader.Valid() && reader.window == [] && |line| <= reader.file.pos
      modifies reader.file
      ensures reader.Valid() && reader.file.size >= old(reader.file.size)
      ensures !lost ==> reader.Offset() == old(reader.file.pos) - |line|
      ensures reader.file.faults >= old(reader.file.faults) + if lost then 1 else 0
    {
      var ok := reader.file.SeekBack(|line|);
      lost := !ok && line != [];
    }

    /**
     The next accepted line. At end of file it steps back over an unfinished
     line, so that it is read again when complete; `lost` records that the step
     back failed, which the source does not notice.
     */
    method ReadLine() returns (line: seq<byte>, err: Error, ghost eof: nat, ghost lost: bool)
      requires reader.Valid()
      modifies reader, reader.file
      ensures reader.Valid() && reader.file.size >= old(reader.file.size)
      ensures err != BufferFull && err != WriteFailed
      ensures err == Nil ==> Emits(reader.file.all, filter, old(reader.Offset()), reader.Offset(), [line])
      ensures err == Nil ==> reader.Offset() > old(reader.Offset())
      ensures err == Nil ==>
                Chosen(filter, Terminated(reader.file.all[old(reader.Offset())..reader.Offset()]), [line])
      ensures err != Nil ==> line == []
      ensures err == EndOfFile ==> old(reader.file.size) <= eof <= reader.file.size
      ensures err == EndOfFile && !lost ==>
                && Emits(reader.file.all, filter, old(reader.Offset()), reader.Offset(), [])
                && reader.Offset() <= eof && NoNewline(reader.file.all[reader.Offset()..eof])
                && Chosen(filter, Terminated(reader.file.all[old(reader.Offset())..eof]), [])
      ensures reader.file.faults >= old(reader.file.faults) + if err == Failed || lost then 1 else 0
      ensures lost ==> err == EndOfFile
    {
      hide IsLine, NoNewline, Emits, Chosen, SplitLines;
      ghost var all, o := reader.file.all, reader.Offset();
      EmitsNothing(all, filter, o);
      eof, lost := 0, false;
      while true
        invariant reader.Valid() && o <= reader.Offset() && reader.file.size >= old(reader.file.size)
        invariant reader.file.faults == old(reader.file.faults)
        invariant Emits(all, filter, o, reader.Offset(), [])
        decreases |all| - reader.Offset()
      {
        ghost var mid := reader.Offset();
        line, err := ReadPiece();
        if err == Nil {
          EmitsNext(all, filter, o, mid, reader.Offset());
          if Accepts(filter, line) {
            EmitsChosen(all, filter, o, reader.Offset(), reader.Offset(), [line]);
            return;
          }
        } else {
          if err == EndOfFile {
            eof := reader.file.pos;
            lost := StepBack(line);
            EmitsChosen(all, filter, o, mid, eof, []);
          }
          line := [];
          return;
        }
      }
    }

    /** One tick of the timer: copies every accepted line there is and flushes. */
    method Poll() returns (err: Error, ghost eof: nat, ghost lost: bool)
      requires reader.Valid()
      modifies reader, reader.file, writer
      ensures reader.Valid() && reader.file.size >= old(reader.file.size)
      ensures old(Valid()) && err == Nil && !lost ==> Valid() && writer.buffered == []
      ensures old(Valid()) && err == Nil && !lost ==>
                && old(reader.file.size) <= eof <= reader.file.size && start <= eof
                && writer.delivered == Flatten(Accepted(filter, reader.file.all[start..eof]))
                && Delivers(filter, reader.file.all[start..eof], writer.delivered)
      ensures reader.file.faults >= old(reader.file.faults) + if err == Failed || lost then 1 else 0
      ensures writer.faults == old(writer.faults) + if err == WriteFailed then 1 else 0
      ensures err == Nil || err == Failed || err == WriteFailed
    {
      hide IsLine, NoNewline, Select, SplitLines, Flatten, Emits, Delivers, Chosen;
      ghost var all, good, lines := reader.file.all, Valid(), [];
      if good {
        lines := Emitted(all, filter, start, reader.Offset());
      }
      eof, lost := 0, false;
      while true
        invariant reader.Valid() && reader.file.size >= old(reader.file.size)
        invariant good ==> start <= reader.Offset() && Emits(all, filter, start, reader.Offset(), lines)
        invariant good ==> writer.Contents() == Flatten(lines)
        invariant reader.file.faults >= old(reader.file.faults) && !lost
        invariant writer.faults == old(writer.faults)
        decreases |all| - reader.Offset()
      {
        ghost var mid := reader.Offset();
        var line;
        line, err, eof, lost := ReadLine();
        var ok := writer.Write(line);
        if !ok {
          return WriteFailed, eof, false;
        }
        if err != Nil {
          if good && err == EndOfFile && !lost {
            AcceptedDelivers(filter, all[start..eof]);
            PollEnds(all, filter, start, mid, reader.Offset(), eof, lines);
          }
          assert line == [] && Flatten(lines) + line == Flatten(lines);
          break;
        }
        if good {
          EmitsMore(all, filter, start, mid, reader.Offset(), lines, [line]);
          FlattenSnoc(lines, line);
          lines := lines + [line];
        }
      }
      if err == EndOfFile {
        var ok := writer.Flush();
        err := if ok then Nil else WriteFailed;
      }
    }

    /**
     The loop, for any number of ticks before it is stopped. eofs[i] is where
     tick i hit end of file and outs[i] what had reached the output after its
     flush; `lost` records a failed step back in some tick.
     */
    method Loop(ticks: nat) returns (err: Error, ghost eofs: seq<nat>, ghost outs: seq<seq<byte>>, ghost lost: bool)
      requires Valid()
      modifies reader, reader.file, writer
      ensures reader.Valid() && |outs| == |eofs| <= ticks
      ensures !lost ==> forall i, j :: 0 <= i < j < |eofs| ==> eofs[i] <= eofs[j]
      ensures !lost ==> forall i :: 0 <= i < |eofs| ==>
                && start <= eofs[i] <= reader.file.size && old(reader.file.size) <= eofs[i]
                && outs[i] == Flatten(Accepted(filter, reader.file.all[start..eofs[i]]))
                && Delivers(filter, reader.file.all[start..eofs[i]], outs[i])
      ensures err == Nil && !lost ==> |eofs| == ticks && Valid()
      ensures err == Nil && !lost && ticks > 0 ==> writer.delivered == outs[ticks - 1]
      ensures reader.file.faults >= old(reader.file.faults) + if err == Failed || lost then 1 else 0
      ensures writer.faults == old(writer.faults) + if err == WriteFailed then 1 else 0
      ensures err == Nil || err == Failed || err == WriteFailed
    {
      hide Select, SplitLines, Flatten, Delivers;
      err, eofs, outs, lost := Nil, [], [], false;
      var i := 0;
      while i < ticks
        invariant 0 <= i <= ticks && |outs| == |eofs| == i && reader.Valid() && (!lost ==> Valid())
        invariant !lost ==> forall j, k :: 0 <= j < k < i ==> eofs[j] <= eofs[k]
        invariant reader.file.size >= old(reader.file.size)
        invariant !lost ==> forall j :: 0 <= j < i ==>
                    && start <= eofs[j] <= reader.file.size && old(reader.file.size) <= eofs[j]
                    && outs[j] == Flatten(Accepted(filter, reader.file.all[start..eofs[j]]))
                    && Delivers(filter, reader.file.all[start..eofs[j]], outs[j])
        invariant i > 0 ==> writer.delivered == outs[i - 1]
        invariant reader.file.faults >= (old(reader.file.faults) + if lost then 1 else 0) && err == Nil
        invariant writer.faults == old(writer.faults)
      {
        ghost var eof, lostNow;
        err, eof, lostNow := Poll();
        lost := lost || lostNow;
        if err != Nil {
          return;
        }
        eofs, outs, i := eofs + [eof], outs + [writer.delivered], i + 1;
      }
    }
  }

  lemma PollEnds(all: seq<byte>, filter: Filter, o: nat, mid: nat, cur: nat, eof: nat, lines: seq<seq<byte>>)
    requires Emits(all, filter, o, mid, lines) && Emits(all, filter, mid, cur, [])
    requires cur <= eof <= |all| && NoNewline(all[cur..eof])
    ensures o <= cur && AtBoundary(all[o..cur])
    ensures Accepted(filter, all[o..cur]) == Accepted(filter, all[o..eof]) == lines
  {
    EmitsMore(all, filter, o, mid, cur, lines, []);
    assert lines + [] == lines;
    EmitsToEnd(all, filter, o, cur, eof, lines);
  }

  lemma Emitted(all: seq<byte>, filter: Filter, o: nat, cur: nat) returns (lines: seq<seq<byte>>)
    requires o <= cur <= |all| && AtBoundary(all[o..cur])
    ensures Emits(all, filter, o, cur, lines) && lines == Accepted(filter, all[o..cur])
  {
    lines := Accepted(filter, all[o..cur]);
  }

  lemma LineProgress(line: seq<byte>)
    requires IsLine(line)
    ensures |line| > 0
  {
  }

  // ----- seek, then tail

  lemma TargetSelects(s: seq<byte>, filter: Filter, n: nat)
    ensures Accepted(filter, s[Seek.Target(s, filter, n)..]) == LastLines(Accepted(filter, s), n)
  {
    if n == 0 {
      assert s[|s|..] == [];
    } else {
      SeekPositionIsNthLast(s, filter, n);
      SeekPositionSelects(s, filter, n, SeekPosition(s, filter, n));
    }
  }

  /** On a file that no longer changes, the first tick after a seek emits exactly the last n accepted lines. */
  method TailLast(file: File, n: nat, filter: Filter, bufferSize: nat) returns (t: Tailer, err: Error)
    requires file.Valid() && bufferSize >= 1 && file.size == |file.all|
    modifies file
    ensures fresh(t) && t.reader.file == file
    ensures file.faults == old(file.faults) && t.writer.faults == 0 ==>
              err == Nil && exists kept :: Chosen(filter, Terminated(file.all), kept)
                                           && t.writer.delivered == Flatten(LastLines(kept, n))
  {
    hide Select, SplitLines, Flatten, LastLines, Chosen;
    var ok, end, calls := Seek.SeekLastLines(file, n, filter, bufferSize);
    t := new Tailer(file, filter, bufferSize);
    if !ok {
      return t, Failed;
    }
    assert file.all[..end] == file.all;
    TargetSelects(file.all, filter, n);
    AcceptedChosen(filter, file.all);
    ghost var eof, lost;
    err, eof, lost := t.Poll();
    assert !lost && err == Nil ==> file.all[t.start..eof] == file.all[t.start..];
  }
}
