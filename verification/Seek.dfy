/**
 `SeekLastLines` of tailer/tailer.go: a file is read backwards in chunks into a
 buffer that grows and is shifted in place, until the start of the wanted line
 is in it. The result is the position that `Lines` defines on the whole file.
 */
module Seek {
  import opened Lines
  import opened Files

  /** Where the read offset is left for a file holding s. */
  function Target(s: seq<byte>, filter: Filter, lines: nat): (p: nat)
    ensures p <= |s|
  {
    if lines == 0 then |s| else SeekPosition(s, filter, lines)
  }

  /**
   p is where the last n lines that the filter lets through begin: at the first
   of them, or at 0 if there are fewer; the end of s for n == 0.
   */
  ghost predicate SeeksTo(filter: Filter, s: seq<byte>, n: nat, p: nat) {
    && p <= |s| && (n == 0 ==> p == |s|)
    && (n > 0 ==> AtBoundary(s[..p]))
    && exists kept, after ::
         && Chosen(filter, Terminated(s), kept) && Chosen(filter, Terminated(s[p..]), after)
         && Begins(Terminated(s[p..]), kept, after, n, p)
  }

  /** `after` is the last n of `kept`, and p the start of its first line, or 0 if there are fewer. */
  ghost predicate Begins(lines: seq<seq<byte>>, kept: seq<seq<byte>>, after: seq<seq<byte>>, n: nat, p: nat) {
    && after == LastLines(kept, n)
    && (|kept| < n ==> p == 0)
    && (1 <= n <= |kept| ==> after != [] && lines != [] && lines[0] == after[0])
  }

  lemma TargetBegins(s: seq<byte>, filter: Filter, n: nat)
    requires n >= 1
    ensures var p := Target(s, filter, n);
            AtBoundary(s[..p]) && Begins(Terminated(s[p..]), Accepted(filter, s), Accepted(filter, s[p..]), n, p)
  {
    hide SplitLines, SeekPosition;
    SeekPositionIsNthLast(s, filter, n);
    SeekPositionSelects(s, filter, n, Target(s, filter, n));
  }

  lemma TargetSeeks(s: seq<byte>, filter: Filter, n: nat)
    ensures SeeksTo(filter, s, n, Target(s, filter, n))
  {
    hide SplitLines, SeekPosition, Chosen, Select, LastLines;
    var p := Target(s, filter, n);
    AcceptedChosen(filter, s);
    AcceptedChosen(filter, s[p..]);
    if n == 0 {
      assert s[p..] == [];
      NoneBegin(filter, Accepted(filter, s));
    } else {
      TargetBegins(s, filter, n);
    }
  }

  lemma NoneBegin(filter: Filter, kept: seq<seq<byte>>)
    ensures Accepted(filter, []) == LastLines(kept, 0) == []
  {
  }

  /** The filter calls made so far: lines of s from the last one backwards. */
  ghost predicate CallsWalkBack(calls: seq<seq<byte>>, s: seq<byte>) {
    var lines := Terminated(s);
    && |calls| <= |lines|
    && forall i :: 0 <= i < |calls| ==> calls[i] == lines[|lines| - 1 - i]
  }

  /** The calls made with a filter, against the lines they were made on. */
  ghost predicate Mirrors(filter: Filter, calls: seq<seq<byte>>, tail: seq<seq<byte>>) {
    if filter.NoFilter? then calls == []
    else |calls| == |tail| && forall i :: 0 <= i < |calls| ==> calls[i] == tail[|tail| - 1 - i]
  }

  /** At most one newline in s, and then at its end. */
  ghost predicate OneLineAtMost(s: seq<byte>) {
    s == [] || NoNewline(s[..|s| - 1])
  }

  // ----- one step of the scan

  lemma CutChunk(chunk: seq<byte>, start: nat)
    requires chunk != [] && chunk[|chunk| - 1] == NEWLINE
    requires start > 0 && start - 1 == LastNewline(chunk[..|chunk| - 1])
    ensures chunk == chunk[..start] + chunk[start..]
    ensures AtBoundary(chunk[..start]) && IsLine(chunk[start..])
  {
    var a, body := CutAfterLastNewline(chunk[..|chunk| - 1]);
    IsLineOf(body);
    assert chunk[start..] == body + [NEWLINE] && chunk[..start] == a;
  }

  lemma ScanStep(before: seq<byte>, a: seq<byte>, line: seq<byte>, filter: Filter, n: nat)
    requires n >= 1 && a != [] && AtBoundary(a) && IsLine(line)
    ensures SeekPosition(before + (a + line), filter, n)
         == if !Accepts(filter, line) then SeekPosition(before + a, filter, n)
            else if n == 1 then |before| + |a|
            else SeekPosition(before + a, filter, n - 1)
    ensures Terminated(before + (a + line)) == Terminated(before + a) + [line]
  {
    assert before + (a + line) == (before + a) + line + [];
    SeekPositionUnfold(before + (a + line), filter, n, before + a, line, []);
    TerminatedThreeParts(before + a, line, []);
  }

  /**
   What both loops keep: with `left` still to be searched for n more lines, the
   search ends at target, and the calls so far are the lines cut off `whole`.
   With n == 0 the search is over, just behind `left`.
   */
  ghost predicate Searching(left: seq<byte>, filter: Filter, n: nat, calls: seq<seq<byte>>,
                            target: nat, whole: seq<seq<byte>>, tail: seq<seq<byte>>)
  {
    && target == (if n == 0 then |left| else SeekPosition(left, filter, n))
    && Terminated(left) + tail == whole
    && Mirrors(filter, calls, tail)
  }

  function Call(filter: Filter, calls: seq<seq<byte>>, line: seq<byte>): seq<seq<byte>> {
    if filter.NoFilter? then calls else calls + [line]
  }

  /** Cutting the last line off. */
  lemma ScanAdvance(before: seq<byte>, chunk: seq<byte>, start: nat, filter: Filter, n: nat,
                    calls: seq<seq<byte>>, target: nat, whole: seq<seq<byte>>, tail: seq<seq<byte>>)
    requires chunk != [] && chunk[|chunk| - 1] == NEWLINE
    requires start > 0 && start - 1 == LastNewline(chunk[..|chunk| - 1])
    requires n >= 1 && Searching(before + chunk, filter, n, calls, target, whole, tail)
    ensures chunk[start - 1] == NEWLINE
    ensures Searching(before + chunk[..start], filter, if Accepts(filter, chunk[start..]) then n - 1 else n,
                      Call(filter, calls, chunk[start..]), target, whole, [chunk[start..]] + tail)
  {
    CutChunk(chunk, start);
    var a, line := chunk[..start], chunk[start..];
    ScanStep(before, a, line, filter, n);
    assert Terminated(before + a) + [line] + tail == Terminated(before + a) + ([line] + tail);
    assert chunk[start - 1] == a[start - 1];
  }

  lemma OneLineLeft(chunk: seq<byte>)
    requires chunk != [] && LastNewline(chunk[..|chunk| - 1]) == -1
    ensures OneLineAtMost(chunk)
  {
    var a, rest := CutAfterLastNewline(chunk[..|chunk| - 1]);
    assert rest == chunk[..|chunk| - 1];
  }

  /** Nothing is found in what is left when no line can still be split off. */
  lemma OneLineSeek(s: seq<byte>, filter: Filter, n: nat)
    requires n >= 1 && OneLineAtMost(s)
    ensures SeekPosition(s, filter, n) == 0
  {
    if LastNewline(s) >= 0 {
      var head, line, tail := CutLastLine(s);
      assert forall i :: 0 <= i < |head| ==> head[i] == s[..|s| - 1][i];
      assert head == [];
      SeekPositionUnfold(s, filter, n, head, line, tail);
    }
  }

  lemma SeekIgnoresTail(s: seq<byte>, tail: seq<byte>, filter: Filter, n: nat)
    requires n >= 1 && NoNewline(tail)
    ensures SeekPosition(s + tail, filter, n) == SeekPosition(s, filter, n)
  {
    if LastNewline(s) >= 0 {
      var head, line, rest := CutLastLine(s);
      assert s + tail == head + line + (rest + tail);
      SeekPositionUnfold(s, filter, n, head, line, rest);
      SeekPositionUnfold(s + tail, filter, n, head, line, rest + tail);
    } else {
      var a, rest := CutAfterLastNewline(s);
      LastNewlineOf([], rest + tail);
      assert s + tail == [] + (rest + tail);
    }
  }

  // ----- library calls

  /** The index of the last newline among the first n bytes. */
  method LastIndex(buffer: array<byte>, n: nat) returns (k: int)
    requires n <= buffer.Length
    ensures -1 <= k < n && k == LastNewline(buffer[..n])
  {
    k := n - 1;
    while k >= 0 && buffer[k] != NEWLINE
      invariant -1 <= k < n
      invariant LastNewline(buffer[..n]) == LastNewline(buffer[..k + 1])
    {
      assert buffer[..k + 1][..k] == buffer[..k];
      k := k - 1;
    }
  }

  /** The last line of the first end bytes, whose last byte is a newline, and where it starts. */
  method LastLine(buffer: array<byte>, end: nat, ghost chunk: seq<byte>) returns (start: nat, line: seq<byte>)
    requires 0 < end <= buffer.Length && chunk == buffer[..end]
    ensures start == LastNewline(chunk[..end - 1]) + 1 && line == chunk[start..]
    ensures chunk[..start] == buffer[..start]
  {
    var k := LastIndex(buffer, end - 1);
    start := k + 1;
    line := buffer[start..end];
    assert chunk[..end - 1] == buffer[..end - 1];
  }

  /** Moves the first len bytes up by space places, as an overlapping copy does. */
  method Shift(buffer: array<byte>, len: nat, space: nat)
    requires len + space <= buffer.Length
    modifies buffer
    ensures buffer[space..space + len] == old(buffer[..len])
  {
    forall i | 0 <= i < len {
      buffer[space + i] := buffer[i];
    }
  }

  // ----- the loops

  /**
   Makes room for at least one and at most offset bytes in front of the len
   bytes in buffer, doubling its capacity if less than bufferSize is free.
   */
  method MakeRoom(buffer: array<byte>, len: nat, bufferSize: nat, offset: nat)
    returns (buffer': array<byte>, space: nat)
    requires 1 <= bufferSize <= buffer.Length && len <= buffer.Length && offset > 0
    modifies buffer
    ensures buffer' == buffer || fresh(buffer')
    ensures 1 <= space <= offset && len + space <= buffer'.Length
    ensures buffer'.Length >= bufferSize
    ensures buffer'[space..space + len] == old(buffer[..len])
  {
    buffer', space := buffer, buffer.Length - len;
    if space < bufferSize {
      buffer' := new byte[2 * buffer.Length](i requires 0 <= i < 2 * buffer.Length reads buffer =>
        if i < len then buffer[i] else 0);
      space := buffer'.Length - len;
      assert buffer'[..len] == old(buffer[..len]);
    }
    if space > offset {
      space := offset;
    }
    Shift(buffer', len, space);
  }

  /**
   One chunk: reads the bytes that precede offset into room made in front of
   the bytes left over from before. What file and buffer together hold stays
   the same.
   */
  method Prepend(file: File, buffer: array<byte>, len: nat, bufferSize: nat, offset: nat)
    returns (ok: bool, buffer': array<byte>, len': nat, offset': nat)
    requires file.Valid() && 1 <= bufferSize <= buffer.Length && len <= buffer.Length
    requires 0 < offset <= file.size
    modifies file, buffer
    ensures file.Valid() && file.size >= old(file.size)
    ensures buffer' == buffer || fresh(buffer')
    ensures file.faults == old(file.faults) + if ok then 0 else 1
    ensures bufferSize <= buffer'.Length && len' <= buffer'.Length && offset' < offset
    ensures ok ==> file.all[..offset'] + buffer'[..len'] == file.all[..offset] + old(buffer[..len])
  {
    ghost var left := buffer[..len];
    var space;
    buffer', space := MakeRoom(buffer, len, bufferSize, offset);
    len', offset' := len + space, offset - space;
    ok := file.SeekTo(offset');
    if !ok {
      return;
    }
    ghost var shifted := buffer'[space..];
    assert shifted[..len] == left;
    ok := file.ReadFull(buffer', space);
    if ok {
      Joined(file.all, offset, space, buffer'[..], len', left);
    }
  }

  lemma Joined(all: seq<byte>, offset: nat, space: nat, buffer: seq<byte>, len': nat, left: seq<byte>)
    requires space <= offset <= |all| && space <= len' <= |buffer| && |left| == len' - space
    requires buffer[..space] == all[offset - space..offset]
    requires buffer[space..][..len' - space] == left
    ensures all[..offset - space] + buffer[..len'] == all[..offset] + left
  {
    assert buffer[..len'] == buffer[..space] + left;
    assert all[..offset] == all[..offset - space] + all[offset - space..offset];
  }

  /**
   Takes lines off the end of the first end0 bytes of buffer until enough have
   been accepted or only one, possibly incomplete, line is left. `before` is
   what the file holds before the buffer.
   */
  method Scan(buffer: array<byte>, end0: nat, ghost before: seq<byte>, offset: nat, filter: Filter, lines: nat,
              found0: nat, ghost calls0: seq<seq<byte>>, ghost target: nat, ghost whole: seq<seq<byte>>,
              ghost tail0: seq<seq<byte>>)
    returns (done: bool, end: nat, found: nat, seekPos: nat,
             ghost calls: seq<seq<byte>>, ghost tail: seq<seq<byte>>)
    requires 0 < end0 <= buffer.Length && buffer[end0 - 1] == NEWLINE
    requires |before| == offset && found0 < lines
    requires Searching(before + buffer[..end0], filter, lines - found0, calls0, target, whole, tail0)
    ensures 0 < end <= end0
    ensures found <= lines
    ensures Searching(before + buffer[..end], filter, lines - found, calls, target, whole, tail)
    ensures if done then seekPos == target else seekPos == 0 && found < lines && OneLineAtMost(buffer[..end])
  {
    hide SeekPosition, SplitLines, LastNewline, Searching;
    done, end, found, seekPos, calls, tail := false, end0, found0, 0, calls0, tail0;
    ghost var chunk := buffer[..end0];
    while true
      invariant 0 < end <= end0 && chunk == buffer[..end] && chunk[end - 1] == NEWLINE
      invariant found < lines && !done && seekPos == 0
      invariant Searching(before + chunk, filter, lines - found, calls, target, whole, tail)
      decreases end
    {
      var start, line := LastLine(buffer, end, chunk);
      if start == 0 {
        OneLineLeft(chunk);
        return;
      }
      ScanAdvance(before, chunk, start, filter, lines - found, calls, target, whole, tail);
      end, calls, tail := start, Call(filter, calls, line), [line] + tail;
      chunk := chunk[..start];
      if Accepts(filter, line) {
        found := found + 1;
        if found >= lines {
          done, seekPos := true, offset + start;
          return;
        }
      }
    }
  }

  /** An unterminated end of the buffer can be dropped. */
  lemma DropTail(before: seq<byte>, chunk: seq<byte>, filter: Filter, n: nat, calls: seq<seq<byte>>,
                 target: nat, whole: seq<seq<byte>>, tail: seq<seq<byte>>)
    requires n >= 1 && Searching(before + chunk, filter, n, calls, target, whole, tail)
    ensures Searching(before + chunk[..LastNewline(chunk) + 1], filter, n, calls, target, whole, tail)
    ensures AtBoundary(chunk[..LastNewline(chunk) + 1])
  {
    hide SeekPosition, SplitLines, LastNewline;
    var a, rest := CutAfterLastNewline(chunk);
    assert chunk[..LastNewline(chunk) + 1] == a;
    assert before + chunk == before + a + rest;
    SeekIgnoresTail(before + a, rest, filter, n);
    TerminatedTail(before + a, rest);
  }

  lemma SearchStarts(s: seq<byte>, zeros: seq<byte>, filter: Filter, n: nat)
    requires n >= 1 && NoNewline(zeros)
    ensures Searching(s + zeros, filter, n, [], SeekPosition(s, filter, n), Terminated(s), [])
  {
    SeekIgnoresTail(s, zeros, filter, n);
    TerminatedTail(s, zeros);
  }

  lemma NoCalls(s: seq<byte>)
    ensures CallsWalkBack([], s)
  {
  }

  lemma SearchCalls(s: seq<byte>, left: seq<byte>, filter: Filter, n: nat, calls: seq<seq<byte>>,
                    target: nat, tail: seq<seq<byte>>)
    requires Searching(left, filter, n, calls, target, Terminated(s), tail)
    ensures CallsWalkBack(calls, s) && (filter.NoFilter? ==> calls == [])
  {
    hide SeekPosition, SplitLines;
  }

  lemma SearchEnds(left: seq<byte>, filter: Filter, n: nat, calls: seq<seq<byte>>, target: nat,
                   whole: seq<seq<byte>>, tail: seq<seq<byte>>)
    requires n >= 1 && Searching(left, filter, n, calls, target, whole, tail) && OneLineAtMost(left)
    ensures target == 0
  {
    OneLineSeek(left, filter, n);
  }

  /** Reads one more chunk and scans it; one turn of the outer loop. */
  method SeekChunk(file: File, buffer: array<byte>, len: nat, bufferSize: nat, offset: nat, filter: Filter,
                   lines: nat, found: nat, ghost s: seq<byte>, ghost calls: seq<seq<byte>>, ghost target: nat,
                   ghost tail: seq<seq<byte>>)
    returns (ok: bool, done: bool, buffer': array<byte>, len': nat, offset': nat, found': nat, seekPos: nat,
             ghost calls': seq<seq<byte>>, ghost tail': seq<seq<byte>>)
    requires file.Valid() && 1 <= bufferSize <= buffer.Length && len <= buffer.Length
    requires 0 < offset <= file.size && found < lines
    requires Searching(file.all[..offset] + buffer[..len], filter, lines - found, calls, target, Terminated(s), tail)
    modifies file, buffer
    ensures file.Valid() && file.size >= old(file.size) && (buffer' == buffer || fresh(buffer'))
    ensures file.faults == old(file.faults) + if ok then 0 else 1
    ensures bufferSize <= buffer'.Length && len' <= buffer'.Length && offset' < offset
    ensures !ok ==> calls' == calls
    ensures ok ==> CallsWalkBack(calls', s) && (filter.NoFilter? ==> calls' == [])
    ensures ok && done ==> seekPos == target
    ensures ok && !done ==> found' < lines && seekPos == 0 && (offset' == 0 ==> target == 0)
    ensures ok && !done ==> Searching(file.all[..offset'] + buffer'[..len'], filter, lines - found', calls',
                                      target, Terminated(s), tail')
  {
    hide SeekPosition, SplitLines, LastNewline, Searching, CallsWalkBack, Terminated, Mirrors;
    done, found', seekPos, calls', tail' := false, found, 0, calls, tail;
    ok, buffer', len', offset' := Prepend(file, buffer, len, bufferSize, offset);
    if !ok {
      return;
    }
    var k := LastIndex(buffer', len');
    ghost var before := file.all[..offset'];
    DropTail(before, buffer'[..len'], filter, lines - found, calls, target, Terminated(s), tail);
    assert buffer'[..len'][..k + 1] == buffer'[..k + 1];
    if k == -1 {
      len' := 0;
    } else {
      done, len', found', seekPos, calls', tail' :=
        Scan(buffer', k + 1, before, offset', filter, lines, found, calls, target, Terminated(s), tail);
    }
    SearchCalls(s, before + buffer'[..len'], filter, lines - found', calls', target, tail');
    if !done && offset' == 0 {
      assert before + buffer'[..len'] == buffer'[..len'];
      SearchEnds(buffer'[..len'], filter, lines - found', calls', target, Terminated(s), tail');
    }
  }

  /**
   Leaves the offset at the start of the n-th last accepted line of the file as
   it was when its end was found, or at 0 if it has fewer, whatever the buffer
   size. The source ignores an error of the last seek, so a nil error means the
   position is right only if no call failed.
   */
  method SeekLastLines(file: File, lines: nat, filter: Filter, bufferSize: nat)
    returns (ok: bool, ghost end: nat, ghost calls: seq<seq<byte>>)
    requires file.Valid() && bufferSize >= 1
    modifies file
    ensures file.Valid() && old(file.size) <= end <= file.size
    ensures file.faults == old(file.faults) ==> ok && file.pos == Target(file.all[..end], filter, lines)
    ensures file.faults == old(file.faults) ==> SeeksTo(filter, file.all[..end], lines, file.pos)
    ensures old(file.faults) <= file.faults <= old(file.faults) + 1
    ensures !ok ==> file.faults == old(file.faults) + 1
    ensures CallsWalkBack(calls, file.all[..end])
    ensures filter.NoFilter? ==> calls == []
  {
    hide SeekPosition, SplitLines, LastNewline, Searching, CallsWalkBack, Terminated, Mirrors, SeeksTo;
    calls := [];
    ok := file.SeekEnd();
    end := file.size;
    ghost var s := file.all[..end];
    TargetSeeks(s, filter, lines);
    NoCalls(s);
    if !ok || lines == 0 {
      return;
    }
    var offset, seekPos: nat, found: nat := file.pos, 0, 0;
    var buffer, len: nat := new byte[bufferSize](_ => 0), bufferSize;
    ghost var target, tail := SeekPosition(s, filter, lines), [];
    SearchStarts(s, buffer[..len], filter, lines);
    while offset > 0
      invariant file.Valid() && end <= file.size && 0 <= offset <= end && fresh(buffer)
      invariant ok && file.faults == old(file.faults)
      invariant len <= buffer.Length && bufferSize <= buffer.Length && found < lines && seekPos == 0
      invariant Searching(file.all[..offset] + buffer[..len], filter, lines - found, calls, target, Terminated(s), tail)
      invariant CallsWalkBack(calls, s) && (filter.NoFilter? ==> calls == [])
      invariant offset == 0 ==> target == 0
      decreases offset
    {
      var done;
      ok, done, buffer, len, offset, found, seekPos, calls, tail :=
        SeekChunk(file, buffer, len, bufferSize, offset, filter, lines, found, s, calls, target, tail);
      if !ok {
        return;
      }
      if done {
        break;
      }
    }
    var _ := file.SeekTo(seekPos);
  }
}
