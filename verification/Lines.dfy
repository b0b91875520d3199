/**
 Newline-terminated lines of a byte sequence, and the position at which the
 last n accepted lines begin. Both are defined on whole sequences, with no
 buffers or chunks, and serve as the reference for `Seek` and `Tailer`.
 */
module Lines {

  newtype byte = x: int | 0 <= x < 256

  const NEWLINE: byte := 10

  /** A line filter; the source's nil filter accepts every line and is never called. */
  datatype Filter = NoFilter | Calling(accepts: seq<byte> -> bool)

  predicate Accepts(filter: Filter, line: seq<byte>) {
    filter.NoFilter? || filter.accepts(line)
  }

  /** The index of the last newline, or -1. */
  function LastNewline(s: seq<byte>): (k: int)
    ensures -1 <= k < |s|
  {
    if s == [] then -1
    else if s[|s| - 1] == NEWLINE then |s| - 1
    else LastNewline(s[..|s| - 1])
  }

  /** The complete lines of a byte sequence, and the bytes after the last newline. */
  datatype Split = Split(lines: seq<seq<byte>>, rest: seq<byte>)

  /** Bytes accumulate until a newline closes a line. */
  function SplitLines(s: seq<byte>): Split {
    if s == [] then Split([], [])
    else
      var sp, c := SplitLines(s[..|s| - 1]), s[|s| - 1];
      if c == NEWLINE then Split(sp.lines + [sp.rest + [c]], []) else Split(sp.lines, sp.rest + [c])
  }

  /** The terminated lines of s, in order, each with its newline. */
  function Terminated(s: seq<byte>): seq<seq<byte>> {
    SplitLines(s).lines
  }

  /** The elements that pass a test, in order. */
  function Select<T>(test: T -> bool, xs: seq<T>): (r: seq<T>) {
    if xs == [] then []
    else if test(xs[0]) then [xs[0]] + Select(test, xs[1..])
    else Select(test, xs[1..])
  }

  /** The accepted terminated lines of s. */
  function Accepted(filter: Filter, s: seq<byte>): seq<seq<byte>> {
    Select(line => Accepts(filter, line), Terminated(s))
  }

  function Flatten(lines: seq<seq<byte>>): seq<byte> {
    if lines == [] then [] else lines[0] + Flatten(lines[1..])
  }

  /** The last n lines, or all of them if there are fewer. */
  function LastLines(lines: seq<seq<byte>>, n: nat): seq<seq<byte>> {
    if |lines| <= n then lines else lines[|lines| - n..]
  }

  ghost predicate NoNewline(s: seq<byte>) {
    forall i :: 0 <= i < |s| ==> s[i] != NEWLINE
  }

  /** True if s ends at a line boundary. */
  predicate AtBoundary(s: seq<byte>) {
    s == [] || s[|s| - 1] == NEWLINE
  }

  ghost predicate IsLine(s: seq<byte>) {
    |s| > 0 && s[|s| - 1] == NEWLINE && NoNewline(s[..|s| - 1])
  }

  // ----- lines of concatenations

  lemma SplitSnoc(s: seq<byte>, c: byte)
    ensures SplitLines(s + [c])
         == if c == NEWLINE then Split(SplitLines(s).lines + [SplitLines(s).rest + [c]], [])
            else Split(SplitLines(s).lines, SplitLines(s).rest + [c])
  {
    assert (s + [c])[..|s|] == s;
  }

  lemma {:induction false} SplitTail(s: seq<byte>, tail: seq<byte>)
    requires NoNewline(tail)
    ensures SplitLines(s + tail) == Split(SplitLines(s).lines, SplitLines(s).rest + tail)
    decreases |tail|
  {
    if tail == [] {
      assert s + tail == s;
    } else {
      var c, t := tail[0], tail[1..];
      SplitSnoc(s, c);
      SplitTail(s + [c], t);
      assert s + tail == s + [c] + t;
      var rest := SplitLines(s).rest;
      assert rest + tail == rest + [c] + t;
    }
  }

  /** Bytes after the last newline never form a line. */
  lemma TerminatedTail(s: seq<byte>, tail: seq<byte>)
    requires NoNewline(tail)
    ensures Terminated(s + tail) == Terminated(s)
  {
    SplitTail(s, tail);
  }

  lemma TerminatedNone(s: seq<byte>)
    requires NoNewline(s)
    ensures Terminated(s) == []
  {
    SplitTail([], s);
    assert [] + s == s;
  }

  lemma {:induction false} SplitAppend(a: seq<byte>, b: seq<byte>)
    requires SplitLines(a).rest == []
    ensures SplitLines(a + b) == Split(SplitLines(a).lines + SplitLines(b).lines, SplitLines(b).rest)
    decreases |b|
  {
    if b == [] {
      assert a + b == a;
    } else {
      var t, c := b[..|b| - 1], b[|b| - 1];
      SplitAppend(a, t);
      assert a + b == (a + t) + [c];
      SplitSnoc(a + t, c);
    }
  }

  lemma TerminatedAppend(a: seq<byte>, b: seq<byte>)
    requires AtBoundary(a)
    ensures Terminated(a + b) == Terminated(a) + Terminated(b)
  {
    SplitAppend(a, b);
  }

  lemma TerminatedLine(s: seq<byte>)
    requires IsLine(s)
    ensures Terminated(s) == [s]
  {
    var body := s[..|s| - 1];
    SplitTail([], body);
    assert [] + body == body;
    SplitSnoc(body, NEWLINE);
    assert body + [NEWLINE] == s;
  }

  lemma {:induction false} SelectAppend<T>(test: T -> bool, a: seq<T>, b: seq<T>)
    ensures Select(test, a + b) == Select(test, a) + Select(test, b)
  {
    if a == [] {
      assert a + b == b;
    } else {
      assert (a + b)[1..] == a[1..] + b;
      SelectAppend(test, a[1..], b);
    }
  }

  lemma {:induction false} FlattenAppend(a: seq<seq<byte>>, b: seq<seq<byte>>)
    ensures Flatten(a + b) == Flatten(a) + Flatten(b)
  {
    if a == [] {
      assert a + b == b;
    } else {
      assert (a + b)[1..] == a[1..] + b;
      FlattenAppend(a[1..], b);
    }
  }

  lemma AcceptedAppend(filter: Filter, a: seq<byte>, b: seq<byte>)
    requires AtBoundary(a)
    ensures Accepted(filter, a + b) == Accepted(filter, a) + Accepted(filter, b)
  {
    TerminatedAppend(a, b);
    SelectAppend(line => Accepts(filter, line), Terminated(a), Terminated(b));
  }

  lemma AcceptedLine(filter: Filter, line: seq<byte>)
    requires IsLine(line)
    ensures Accepted(filter, line) == if Accepts(filter, line) then [line] else []
  {
    TerminatedLine(line);
    SelectOne(l => Accepts(filter, l), line);
  }

  lemma SelectOne<T>(test: T -> bool, x: T)
    ensures Select(test, [x]) == if test(x) then [x] else []
  {
    assert [x][1..] == [];
  }

  /** The lines and the rest partition s: no byte is lost, repeated or moved. */
  lemma {:induction false} SplitPartition(s: seq<byte>)
    ensures Flatten(SplitLines(s).lines) + SplitLines(s).rest == s
  {
    if s == [] {
    } else {
      var t, c := s[..|s| - 1], s[|s| - 1];
      var sp := SplitLines(t);
      SplitPartition(t);
      assert Flatten(sp.lines) + (sp.rest + [c]) == t + [c] == s;
      if c == NEWLINE {
        FlattenSnoc(sp.lines, sp.rest + [c]);
      }
    }
  }

  lemma FlattenSnoc(lines: seq<seq<byte>>, line: seq<byte>)
    ensures Flatten(lines + [line]) == Flatten(lines) + line
  {
    FlattenAppend(lines, [line]);
    assert [line][1..] == [];
    assert Flatten([line]) == line + [];
  }

  /** Every terminated line holds one newline, at its end. */
  lemma {:induction false} SplitIntoLines(s: seq<byte>)
    ensures forall i :: 0 <= i < |SplitLines(s).lines| ==> IsLine(SplitLines(s).lines[i])
    ensures NoNewline(SplitLines(s).rest)
  {
    if s == [] {
    } else {
      var sp, c := SplitLines(s[..|s| - 1]), s[|s| - 1];
      SplitIntoLines(s[..|s| - 1]);
      assert (sp.rest + [c])[..|sp.rest|] == sp.rest;
    }
  }

  lemma LastNewlineOf(a: seq<byte>, tail: seq<byte>)
    requires AtBoundary(a) && NoNewline(tail)
    ensures LastNewline(a + tail) == |a| - 1
    decreases |tail|
  {
    if tail == [] {
      assert a + tail == a;
    } else {
      assert (a + tail)[..|a + tail| - 1] == a + tail[..|tail| - 1];
      LastNewlineOf(a, tail[..|tail| - 1]);
    }
  }

  /** Cuts s after its last newline. */
  lemma {:induction false} CutAfterLastNewline(s: seq<byte>) returns (a: seq<byte>, tail: seq<byte>)
    ensures s == a + tail && |a| == LastNewline(s) + 1
    ensures AtBoundary(a) && NoNewline(tail)
  {
    if s == [] || s[|s| - 1] == NEWLINE {
      a, tail := s, [];
    } else {
      a, tail := CutAfterLastNewline(s[..|s| - 1]);
      tail := tail + [s[|s| - 1]];
    }
  }

  lemma IsLineOf(body: seq<byte>)
    requires NoNewline(body)
    ensures IsLine(body + [NEWLINE])
  {
    assert (body + [NEWLINE])[..|body|] == body;
  }

  /** Cuts s around its last terminated line. */
  lemma CutLastLine(s: seq<byte>) returns (head: seq<byte>, line: seq<byte>, tail: seq<byte>)
    requires LastNewline(s) >= 0
    ensures s == head + line + tail
    ensures AtBoundary(head) && IsLine(line) && NoNewline(tail)
  {
    var a, body;
    a, tail := CutAfterLastNewline(s);
    head, body := CutAfterLastNewline(a[..|a| - 1]);
    line := body + [NEWLINE];
    IsLineOf(body);
    assert a == head + line;
  }

  // ----- what a filter lets through

  /** out is the subsequence of xs at the indices idx, which are exactly those of elements with p. */
  ghost predicate Picks<T>(xs: seq<T>, p: T -> bool, out: seq<T>, idx: seq<nat>) {
    && |idx| == |out|
    && (forall i, j :: 0 <= i < j < |idx| ==> idx[i] < idx[j])
    && (forall i :: 0 <= i < |idx| ==> idx[i] < |xs| && out[i] == xs[idx[i]])
    && (forall k: nat :: k < |xs| && p(xs[k]) ==> k in idx)
    && (forall k: nat :: k in idx ==> k < |xs| && p(xs[k]))
  }

  /** out is exactly the lines a filter lets through, in order: all of them without a filter. */
  ghost predicate Chosen(filter: Filter, lines: seq<seq<byte>>, out: seq<seq<byte>>) {
    match filter
    case NoFilter => out == lines
    case Calling(p) => exists idx :: Picks(lines, p, out, idx)
  }

  /** out is the concatenation of the terminated lines of s that the filter lets through. */
  ghost predicate Delivers(filter: Filter, s: seq<byte>, out: seq<byte>) {
    exists lines :: Chosen(filter, Terminated(s), lines) && out == Flatten(lines)
  }

  lemma {:induction false} SelectPicks<T>(test: T -> bool, p: T -> bool, xs: seq<T>) returns (idx: seq<nat>)
    requires forall k :: 0 <= k < |xs| ==> (test(xs[k]) <==> p(xs[k]))
    ensures Picks(xs, p, Select(test, xs), idx)
    decreases |xs|
  {
    if xs == [] {
      idx := [];
    } else {
      var n := |xs| - 1;
      idx := SelectPicks(test, p, xs[..n]);
      SelectAppend(test, xs[..n], [xs[n]]);
      SelectOne(test, xs[n]);
      assert xs[..n] + [xs[n]] == xs;
      if test(xs[n]) {
        idx := idx + [n];
      }
    }
  }

  lemma {:induction false} SelectAll<T>(test: T -> bool, xs: seq<T>)
    requires forall k :: 0 <= k < |xs| ==> test(xs[k])
    ensures Select(test, xs) == xs
  {
    if xs == [] {
    } else {
      SelectAll(test, xs[1..]);
    }
  }

  /** The accepted lines are exactly those the filter lets through. */
  lemma AcceptedChosen(filter: Filter, s: seq<byte>)
    ensures Chosen(filter, Terminated(s), Accepted(filter, s))
  {
    var test := line => Accepts(filter, line);
    match filter {
      case NoFilter => SelectAll(test, Terminated(s));
      case Calling(p) => var idx := SelectPicks(test, p, Terminated(s));
    }
  }

  lemma AcceptedDelivers(filter: Filter, s: seq<byte>)
    ensures Delivers(filter, s, Flatten(Accepted(filter, s)))
  {
    AcceptedChosen(filter, s);
  }

  /** Increasing indices below n are at most n. */
  lemma {:induction false} FewIndices(idx: seq<nat>, n: nat)
    requires forall i, j :: 0 <= i < j < |idx| ==> idx[i] < idx[j]
    requires forall i :: 0 <= i < |idx| ==> idx[i] < n
    ensures |idx| <= n
    decreases |idx|
  {
    if idx == [] {
    } else {
      FewIndices(idx[..|idx| - 1], idx[|idx| - 1]);
    }
  }

  lemma {:induction false} PicksOnce<T>(xs: seq<T>, p: T -> bool, a: seq<T>, ia: seq<nat>, b: seq<T>, ib: seq<nat>)
    requires Picks(xs, p, a, ia) && Picks(xs, p, b, ib)
    ensures a == b
    decreases |xs|
  {
    if xs == [] {
      FewIndices(ia, |xs|);
      FewIndices(ib, |xs|);
    } else {
      var n := |xs| - 1;
      var a', ia' := PicksInit(xs, p, a, ia);
      var b', ib' := PicksInit(xs, p, b, ib);
      PicksOnce(xs[..n], p, a', ia', b', ib');
    }
  }

  /** What is picked of all but the last. */
  lemma PicksInit<T>(xs: seq<T>, p: T -> bool, out: seq<T>, idx: seq<nat>) returns (out': seq<T>, idx': seq<nat>)
    requires xs != [] && Picks(xs, p, out, idx)
    ensures Picks(xs[..|xs| - 1], p, out', idx')
    ensures out == out' + if p(xs[|xs| - 1]) then [xs[|xs| - 1]] else []
  {
    var n := |xs| - 1;
    if p(xs[n]) {
      assert n in idx;
      var m := |idx| - 1;
      assert idx[m] == n;
      out', idx' := out[..m], idx[..m];
      assert out == out' + [xs[n]];
      forall k: nat | k < n && p(xs[k])
        ensures k in idx'
      {
        var i :| 0 <= i < |idx| && idx[i] == k;
        assert idx'[i] == k;
      }
    } else {
      out', idx' := out, idx;
    }
  }

  /** A filter lets through one subsequence only. */
  lemma ChosenUnique(filter: Filter, lines: seq<seq<byte>>, a: seq<seq<byte>>, b: seq<seq<byte>>)
    requires Chosen(filter, lines, a) && Chosen(filter, lines, b)
    ensures a == b
  {
    if filter.Calling? {
      var ia :| Picks(lines, filter.accepts, a, ia);
      var ib :| Picks(lines, filter.accepts, b, ib);
      PicksOnce(lines, filter.accepts, a, ia, b, ib);
    }
  }

  // ----- where the last n accepted lines begin

  /** The start of the n-th last accepted line, or 0 if there are fewer than n. */
  function SeekPosition(s: seq<byte>, filter: Filter, n: nat): (p: nat)
    requires n >= 1
    ensures p <= |s|
    decreases |s|
  {
    var k := LastNewline(s);
    if k == -1 then 0 else
      var b := LastNewline(s[..k]) + 1;
      if !Accepts(filter, s[b..k + 1]) then SeekPosition(s[..b], filter, n)
      else if n == 1 then b
      else SeekPosition(s[..b], filter, n - 1)
  }

  /** What being the n-th last accepted line's start means, said on the list of lines. */
  ghost predicate IsNthLastStart(s: seq<byte>, filter: Filter, n: nat, p: nat) {
    && p <= |s|
    && AtBoundary(s[..p])
    && if |Accepted(filter, s)| < n then p == 0 else
         var after := Terminated(s[p..]);
         && after != []
         && Accepts(filter, after[0])
         && |Accepted(filter, s[p..])| == n
  }

  lemma TerminatedThreeParts(a: seq<byte>, line: seq<byte>, tail: seq<byte>)
    requires AtBoundary(a) && IsLine(line) && NoNewline(tail)
    ensures Terminated(a + line + tail) == Terminated(a) + [line]
  {
    TerminatedTail(a + line, tail);
    TerminatedAppend(a, line);
    TerminatedLine(line);
  }

  lemma AcceptedThreeParts(filter: Filter, a: seq<byte>, line: seq<byte>, tail: seq<byte>)
    requires AtBoundary(a) && IsLine(line) && NoNewline(tail)
    ensures Accepted(filter, a + line + tail)
         == Accepted(filter, a) + if Accepts(filter, line) then [line] else []
  {
    TerminatedThreeParts(a, line, tail);
    SelectAppend(line => Accepts(filter, line), Terminated(a), [line]);
  }

  /** A position found before the last line stays right when that line is counted in. */
  lemma SeekStep(head: seq<byte>, line: seq<byte>, tail: seq<byte>, filter: Filter, m: nat, p: nat)
    requires AtBoundary(head) && IsLine(line) && NoNewline(tail)
    requires m >= 1 && IsNthLastStart(head, filter, m, p)
    ensures IsNthLastStart(head + line + tail, filter, if Accepts(filter, line) then m + 1 else m, p)
  {
    var s, after := head + line + tail, head[p..];
    assert head[..p] == s[..p];
    assert s[p..] == after + line + tail;
    AcceptedThreeParts(filter, head, line, tail);
    AcceptedThreeParts(filter, after, line, tail);
    TerminatedThreeParts(after, line, tail);
  }

  /** The last line itself, when it is the only one wanted. */
  lemma SeekLastOne(head: seq<byte>, line: seq<byte>, tail: seq<byte>, filter: Filter)
    requires AtBoundary(head) && IsLine(line) && NoNewline(tail) && Accepts(filter, line)
    ensures IsNthLastStart(head + line + tail, filter, 1, |head|)
  {
    var s := head + line + tail;
    assert s[|head|..] == [] + line + tail && s[..|head|] == head;
    AcceptedThreeParts(filter, head, line, tail);
    AcceptedThreeParts(filter, [], line, tail);
    TerminatedThreeParts([], line, tail);
  }

  lemma {:induction false} SeekPositionIsNthLast(s: seq<byte>, filter: Filter, n: nat)
    requires n >= 1
    ensures IsNthLastStart(s, filter, n, SeekPosition(s, filter, n))
    decreases |s|
  {
    if LastNewline(s) == -1 {
      var a, tail := CutAfterLastNewline(s);
      assert s == tail;
      TerminatedNone(s);
    } else {
      var head, line, tail := CutLastLine(s);
      if n > 1 {
        SeekPositionIsNthLast(head, filter, n - 1);
      }
      SeekPositionIsNthLast(head, filter, n);
      SeekCombine(s, filter, n, head, line, tail);
    }
  }

  lemma SeekCombine(s: seq<byte>, filter: Filter, n: nat, head: seq<byte>, line: seq<byte>, tail: seq<byte>)
    requires AtBoundary(head) && IsLine(line) && NoNewline(tail) && s == head + line + tail && n >= 1
    requires n > 1 ==> IsNthLastStart(head, filter, n - 1, SeekPosition(head, filter, n - 1))
    requires IsNthLastStart(head, filter, n, SeekPosition(head, filter, n))
    ensures IsNthLastStart(s, filter, n, SeekPosition(s, filter, n))
  {
    SeekPositionUnfold(s, filter, n, head, line, tail);
    if !Accepts(filter, line) {
      SeekStep(head, line, tail, filter, n, SeekPosition(head, filter, n));
    } else if n == 1 {
      SeekLastOne(head, line, tail, filter);
    } else {
      SeekStep(head, line, tail, filter, n - 1, SeekPosition(head, filter, n - 1));
    }
  }

  lemma LastLineBounds(head: seq<byte>, line: seq<byte>, tail: seq<byte>)
    requires AtBoundary(head) && IsLine(line) && NoNewline(tail)
    ensures LastNewline(head + line + tail) == |head + line| - 1
    ensures LastNewline((head + line + tail)[..|head + line| - 1]) == |head| - 1
  {
    LastNewlineOf(head + line, tail);
    var body := line[..|line| - 1];
    assert (head + line + tail)[..|head + line| - 1] == head + body;
    LastNewlineOf(head, body);
  }

  /** One step of the backward search, with the last line named. */
  lemma SeekPositionUnfold(s: seq<byte>, filter: Filter, n: nat, head: seq<byte>, line: seq<byte>, tail: seq<byte>)
    requires AtBoundary(head) && IsLine(line) && NoNewline(tail) && s == head + line + tail && n >= 1
    ensures SeekPosition(s, filter, n)
         == if !Accepts(filter, line) then SeekPosition(head, filter, n)
            else if n == 1 then |head|
            else SeekPosition(head, filter, n - 1)
  {
    LastLineBounds(head, line, tail);
    assert s[..|head|] == head;
    assert s[|head|..|head + line|] == line;
  }

  /** Reading on from the position gives exactly the last n accepted lines. */
  lemma SeekPositionSelects(s: seq<byte>, filter: Filter, n: nat, p: nat)
    requires n >= 1 && IsNthLastStart(s, filter, n, p)
    ensures Accepted(filter, s[p..]) == LastLines(Accepted(filter, s), n)
  {
    assert s == s[..p] + s[p..];
    AcceptedAppend(filter, s[..p], s[p..]);
    assert p == 0 ==> s[p..] == s;
  }

  /** No other position qualifies. */
  lemma NthLastStartUnique(s: seq<byte>, filter: Filter, n: nat, p: nat, q: nat)
    requires n >= 1 && IsNthLastStart(s, filter, n, p) && IsNthLastStart(s, filter, n, q)
    ensures p == q
  {
    if |Accepted(filter, s)| >= n {
      if p < q {
        EarlierStartHasMore(s, filter, p, q);
      } else if q < p {
        EarlierStartHasMore(s, filter, q, p);
      }
    }
  }

  lemma EarlierStartHasMore(s: seq<byte>, filter: Filter, p: nat, q: nat)
    requires p < q <= |s| && AtBoundary(s[..q])
    requires Terminated(s[p..]) != [] && Accepts(filter, Terminated(s[p..])[0])
    ensures |Accepted(filter, s[p..])| > |Accepted(filter, s[q..])|
  {
    var gap := s[p..q];
    assert s[p..] == gap + s[q..];
    assert gap[|gap| - 1] == s[..q][q - 1];
    TerminatedAppend(gap, s[q..]);
    SelectAppend(line => Accepts(filter, line), Terminated(gap), Terminated(s[q..]));
    assert Terminated(gap) != [];
  }
}
