/**
 `ShQuote` and `CommandString` of trivial.go, and the reader they write for:
 word recognition with the quoting rules of sections 2.2.1 to 2.2.3 of the
 POSIX Shell Command Language (IEEE Std 1003.1). Where those sections leave
 the meaning of a text to others (expansions, operators, patterns, comments,
 assignments) the reader gives no answer. Text is a sequence of characters;
 Go strings that are not valid UTF-8 are not modelled.
 */
module Shell {
  import opened Options

  const NUL: char := '\0'

  // ----- the reader

  datatype Mode = Plain | Escape | Single | Double | DoubleEscape

  /** The complete words, the word being read if there is one, and the quoting in force. */
  datatype Reader = Reader(words: seq<string>, word: Option<string>, mode: Mode)

  /** Characters that an unquoted text gives a meaning beyond these sections, or may. */
  predicate Special(c: char) {
    c in "|&;<>()$`\n*?[#~=%"
  }

  predicate Blank(c: char) {
    c == ' ' || c == '\t'
  }

  function Started(r: Reader): string {
    if r.word.Some? then r.word.value else ""
  }

  function Append(r: Reader, s: string, mode: Mode): Reader {
    Reader(r.words, Some(Started(r) + s), mode)
  }

  function Flush(r: Reader): Reader {
    Reader(if r.word.Some? then r.words + [r.word.value] else r.words, None, Plain)
  }

  /** One character. */
  function Step(r: Reader, c: char): Option<Reader> {
    if c == NUL then None else
    match r.mode
    case Plain =>
      if Blank(c) then Some(Flush(r))
      else if c == '\\' then Some(r.(mode := Escape))
      else if c == '\'' then Some(Append(r, "", Single))
      else if c == '"' then Some(Append(r, "", Double))
      else if Special(c) then None
      else Some(Append(r, [c], Plain))
    case Escape => Some(if c == '\n' then r.(mode := Plain) else Append(r, [c], Plain))
    case Single => Some(if c == '\'' then r.(mode := Plain) else Append(r, [c], Single))
    case Double =>
      if c == '"' then Some(r.(mode := Plain))
      else if c == '\\' then Some(r.(mode := DoubleEscape))
      else if c == '$' || c == '`' then None
      else Some(Append(r, [c], Double))
    case DoubleEscape =>
      if c == '\n' then Some(r.(mode := Double))
      else if c in "$`\"\\" then Some(Append(r, [c], Double))
      else Some(Append(r, ['\\', c], Double))
  }

  function Run(r: Reader, text: string): Option<Reader> {
    if text == "" then Some(r)
    else
      var before := Run(r, text[..|text| - 1]);
      if before == None then None else Step(before.value, text[|text| - 1])
  }

  const START := Reader([], None, Plain)

  /** The words a text reads as, if these sections say so. */
  function Read(text: string): Option<seq<string>> {
    var r := Run(START, text);
    if r == None || r.value.mode != Plain then None else Some(Flush(r.value).words)
  }

  // ----- the printers

  /** strings.Replace of every single quote. */
  function Requote(s: string): string {
    if s == "" then ""
    else Requote(s[..|s| - 1]) + (if s[|s| - 1] == '\'' then "'\"'\"'" else [s[|s| - 1]])
  }

  function ShQuote(s: string): string {
    "'" + Requote(s) + "'"
  }

  /** unicode.IsSpace. */
  predicate IsSpace(c: char) {
    c in "\t\n\U{000B}\U{000C}\r \U{0085}\U{00A0}\U{1680}\U{2028}\U{2029}\U{202F}\U{205F}\U{3000}"
    || '\U{2000}' <= c <= '\U{200A}'
  }

  /** The characters CommandString puts a backslash before. */
  predicate Escapes(c: char) {
    c == '"' || c == '$' || c == '\\'
  }

  function Escaped(arg: string): string {
    if arg == "" then ""
    else Escaped(arg[..|arg| - 1]) + (if Escapes(arg[|arg| - 1]) then "\\" else "") + [arg[|arg| - 1]]
  }

  predicate NeedsQuotes(arg: string) {
    exists i :: 0 <= i < |arg| && (IsSpace(arg[i]) || Escapes(arg[i]))
  }

  function Quoted(arg: string): string {
    if NeedsQuotes(arg) then "\"" + Escaped(arg) + "\"" else Escaped(arg)
  }

  function Command(args: seq<string>): string {
    if args == [] then ""
    else Command(args[..|args| - 1]) + (if |args| > 1 then " " else "") + Quoted(args[|args| - 1])
  }

  /** The inner loop: the escaped argument and whether it has to be quoted. */
  method EscapeArg(arg: string) returns (argBuf: string, needsQuotes: bool)
    ensures argBuf == Escaped(arg) && needsQuotes == NeedsQuotes(arg)
  {
    argBuf, needsQuotes := "", false;
    for i := 0 to |arg|
      invariant argBuf == Escaped(arg[..i])
      invariant needsQuotes <==> exists j :: 0 <= j < i && (IsSpace(arg[j]) || Escapes(arg[j]))
    {
      var r := arg[i];
      assert arg[..i + 1][..i] == arg[..i];
      if IsSpace(r) {
        needsQuotes := true;
      } else if r == '"' || r == '$' || r == '\\' {
        needsQuotes := true;
        argBuf := argBuf + "\\";
      }
      argBuf := argBuf + [r];
    }
    assert arg[..|arg|] == arg;
  }

  lemma CommandSnoc(args: seq<string>, arg: string)
    ensures Command(args + [arg]) == Command(args) + (if args != [] then " " else "") + Quoted(arg)
  {
    assert (args + [arg])[..|args|] == args;
  }

  method CommandString(args: seq<string>) returns (buf: string)
    ensures buf == Command(args)
  {
    hide NeedsQuotes, Escaped, Command;
    buf := "";
    CommandNone();
    for i := 0 to |args|
      invariant buf == Command(args[..i])
    {
      var argBuf, needsQuotes := EscapeArg(args[i]);
      CommandSnoc(args[..i], args[i]);
      assert args[..i] + [args[i]] == args[..i + 1];
      if i > 0 {
        buf := buf + " ";
      }
      if needsQuotes {
        buf := buf + ("\"" + argBuf + "\"");
      } else {
        buf := buf + argBuf;
      }
    }
    assert args[..|args|] == args;
  }

  lemma CommandNone()
    ensures Command([]) == ""
  {
  }

  // ----- reading in pieces

  lemma {:induction false} RunAppend(r: Reader, a: string, b: string)
    ensures Run(r, a + b) == if Run(r, a) == None then None else Run(Run(r, a).value, b)
    decreases |b|
  {
    if b == "" {
      assert a + b == a;
    } else {
      assert (a + b)[..|a + b| - 1] == a + b[..|b| - 1];
      RunAppend(r, a, b[..|b| - 1]);
    }
  }

  lemma RunOne(r: Reader, c: char)
    ensures Run(r, [c]) == Step(r, c)
  {
    assert [c][..0] == "";
  }

  predicate NulFree(s: string) {
    forall i :: 0 <= i < |s| ==> s[i] != NUL
  }

  lemma {:induction false} NulStops(r: Reader, text: string)
    requires !NulFree(text)
    ensures Run(r, text) == None
  {
    var last := |text| - 1;
    if text[last] != NUL {
      assert !NulFree(text[..last]) by {
        var i :| 0 <= i < |text| && text[i] == NUL;
        assert text[..last][i] == NUL;
      }
      NulStops(r, text[..last]);
    }
  }

  // ----- ShQuote

  /** Inside single quotes, the requoted text adds exactly the text. */
  lemma {:induction false} RequoteReads(ws: seq<string>, w: string, s: string)
    requires NulFree(s)
    ensures Run(Reader(ws, Some(w), Single), Requote(s)) == Some(Reader(ws, Some(w + s), Single))
    decreases |s|
  {
    hide Step;
    var r := Reader(ws, Some(w), Single);
    if s == "" {
      assert w + s == w;
    } else {
      var t, c := s[..|s| - 1], s[|s| - 1];
      RequoteReads(ws, w, t);
      TailReads(ws, w + t, c);
      RunAppend(r, Requote(t), if c == '\'' then "'\"'\"'" else [c]);
      assert w + t + [c] == w + s;
    }
  }

  lemma TailReads(ws: seq<string>, w: string, c: char)
    requires c != NUL
    ensures Run(Reader(ws, Some(w), Single), if c == '\'' then "'\"'\"'" else [c])
         == Some(Reader(ws, Some(w + [c]), Single))
  {
    var r := Reader(ws, Some(w), Single);
    if c == '\'' {
      assert w + "" == w && w + "'" + "" == w + "'";
      var quote := Reader(ws, Some(w + "'"), Double);
      RunTwo(r, '\'', '"', r.(mode := Plain), r.(mode := Double));
      RunOne(r.(mode := Double), '\'');
      RunAppend(r, ['\'', '"'], "'");
      RunTwo(quote, '"', '\'', quote.(mode := Plain), quote.(mode := Single));
      RunAppend(r, ['\'', '"'] + "'", ['"', '\'']);
      assert ['\'', '"'] + "'" + ['"', '\''] == "'\"'\"'";
    } else {
      RunOne(r, c);
    }
  }

  lemma RunTwo(r: Reader, c: char, d: char, mid: Reader, end: Reader)
    requires Step(r, c) == Some(mid) && Step(mid, d) == Some(end)
    ensures Run(r, [c, d]) == Some(end)
  {
    RunOne(r, c);
    RunOne(mid, d);
    RunAppend(r, [c], [d]);
    assert [c] + [d] == [c, d];
  }

  /** Wherever unquoted text is read, a quoted string adds itself to the word being read. */
  lemma ShQuoteInContext(r: Reader, s: string)
    requires r.mode == Plain && NulFree(s)
    ensures Run(r, ShQuote(s)) == Some(Append(r, s, Plain))
  {
    var w := Started(r);
    assert w + "" == w;
    RunOne(r, '\'');
    RunAppend(r, "'", Requote(s));
    RequoteReads(r.words, w, s);
    RunAppend(r, "'" + Requote(s), "'");
    RunOne(Reader(r.words, Some(w + s), Single), '\'');
  }

  lemma {:induction false} RequoteNul(s: string)
    requires !NulFree(s)
    ensures !NulFree(Requote(s))
  {
    var last := |s| - 1;
    if s[last] == NUL {
      assert Requote(s)[|Requote(s)| - 1] == NUL;
    } else {
      var i :| 0 <= i < |s| && s[i] == NUL;
      assert s[..last][i] == NUL;
      RequoteNul(s[..last]);
      var j :| 0 <= j < |Requote(s[..last])| && Requote(s[..last])[j] == NUL;
      assert Requote(s)[j] == NUL;
    }
  }

  /** ShQuote(s) reads back as the one word s exactly if s has no NUL. */
  lemma ShQuoteRoundTrip(s: string)
    ensures Read(ShQuote(s)) == Some([s]) <==> NulFree(s)
    ensures !NulFree(s) ==> Read(ShQuote(s)) == None
  {
    if NulFree(s) {
      ShQuoteInContext(START, s);
      assert "" + s == s && [] + [s] == [s];
    } else {
      RequoteNul(s);
      var i :| 0 <= i < |Requote(s)| && Requote(s)[i] == NUL;
      assert ShQuote(s)[i + 1] == NUL;
      NulStops(START, ShQuote(s));
    }
  }

  // ----- CommandString, forwards

  /** A character that reads as itself outside quotes. */
  predicate Ordinary(c: char) {
    c != NUL && !IsSpace(c) && !Escapes(c) && c != '\'' && !Special(c)
  }

  /** Arguments that CommandString quotes well enough. */
  predicate Safe(arg: string) {
    && arg != ""
    && if NeedsQuotes(arg) then NulFree(arg) && '`' !in arg else forall i :: 0 <= i < |arg| ==> Ordinary(arg[i])
  }

  /** What CommandString writes for one character of an argument. */
  function EscapedChar(c: char): string {
    (if Escapes(c) then "\\" else "") + [c]
  }

  lemma EscapedSnoc(arg: string)
    requires arg != ""
    ensures Escaped(arg) == Escaped(arg[..|arg| - 1]) + EscapedChar(arg[|arg| - 1])
  {
  }

  lemma {:induction false} EscapedReads(ws: seq<string>, w: string, arg: string)
    requires NulFree(arg) && '`' !in arg
    ensures Run(Reader(ws, Some(w), Double), Escaped(arg)) == Some(Reader(ws, Some(w + arg), Double))
    decreases |arg|
  {
    hide Step, Run, EscapedChar;
    var r := Reader(ws, Some(w), Double);
    if arg == "" {
      RunNone(r);
      assert w + arg == w;
    } else {
      var t, c := arg[..|arg| - 1], arg[|arg| - 1];
      EscapedReads(ws, w, t);
      EscapedTail(ws, w + t, c);
      EscapedSnoc(arg);
      RunAppend(r, Escaped(t), EscapedChar(c));
      assert w + t + [c] == w + arg;
    }
  }

  lemma EscapedTail(ws: seq<string>, w: string, c: char)
    requires c != NUL && c != '`'
    ensures Run(Reader(ws, Some(w), Double), EscapedChar(c)) == Some(Reader(ws, Some(w + [c]), Double))
  {
    var r := Reader(ws, Some(w), Double);
    if Escapes(c) {
      RunTwo(r, '\\', c, r.(mode := DoubleEscape), Reader(ws, Some(w + [c]), Double));
      assert "\\" + [c] == ['\\', c];
    } else {
      RunOne(r, c);
      assert "" + [c] == [c];
    }
  }

  lemma {:induction false} EscapedPlain(arg: string)
    requires !NeedsQuotes(arg)
    ensures Escaped(arg) == arg
  {
    if arg == "" {
    } else {
      var t := arg[..|arg| - 1];
      assert !NeedsQuotes(t) by {
        assert forall i :: 0 <= i < |t| ==> t[i] == arg[i];
      }
      EscapedPlain(t);
      assert !Escapes(arg[|arg| - 1]);
      assert t + "" + [arg[|arg| - 1]] == arg;
    }
  }

  lemma {:induction false} OrdinaryReads(ws: seq<string>, arg: string)
    requires forall i :: 0 <= i < |arg| ==> Ordinary(arg[i])
    ensures Run(Reader(ws, None, Plain), arg) == Some(Reader(ws, if arg == "" then None else Some(arg), Plain))
    decreases |arg|
  {
    if arg == "" {
    } else {
      var t, c := arg[..|arg| - 1], arg[|arg| - 1];
      OrdinaryReads(ws, t);
      assert t + [c] == arg;
      assert Ordinary(c);
      assert "" + [c] == [c];
    }
  }

  lemma InQuotes(ws: seq<string>, body: string, end: Option<Reader>)
    requires Run(Reader(ws, Some(""), Double), body) == end
    requires end.Some? ==> end.value.mode == Double
    ensures Run(Reader(ws, None, Plain), "\"" + body + "\"")
         == if end == None then None else Some(end.value.(mode := Plain))
  {
    var r := Reader(ws, None, Plain);
    RunOne(r, '"');
    assert "" + "" == "";
    RunAppend(r, "\"", body);
    RunAppend(r, "\"" + body, "\"");
    if end.Some? {
      RunOne(end.value, '"');
    }
  }

  lemma QuotedReads(ws: seq<string>, arg: string)
    requires Safe(arg)
    ensures Run(Reader(ws, None, Plain), Quoted(arg)) == Some(Reader(ws, Some(arg), Plain))
  {
    hide Step, Run;
    if NeedsQuotes(arg) {
      EscapedReads(ws, "", arg);
      assert "" + arg == arg;
      InQuotes(ws, Escaped(arg), Some(Reader(ws, Some(arg), Double)));
    } else {
      EscapedPlain(arg);
      OrdinaryReads(ws, arg);
    }
  }

  function NonEmpty(args: seq<string>): seq<string> {
    if args == [] then []
    else NonEmpty(args[..|args| - 1]) + if args[|args| - 1] == "" then [] else [args[|args| - 1]]
  }

  predicate SafeOrEmpty(args: seq<string>) {
    forall i :: 0 <= i < |args| ==> args[i] == "" || Safe(args[i])
  }

  /** Ends the word being read; what a separating blank does. */
  lemma RunBlank(r: Reader)
    requires r.mode == Plain
    ensures Run(r, " ") == Some(Flush(r))
  {
    RunOne(r, ' ');
  }

  lemma {:induction false} CommandReads(args: seq<string>)
    requires SafeOrEmpty(args)
    ensures var r := Run(START, Command(args));
            r.Some? && r.value.mode == Plain && Flush(r.value).words == NonEmpty(args)
    ensures args == [] ==> Run(START, Command(args)) == Some(START)
    decreases |args|
  {
    hide Step, Run, Safe, NeedsQuotes;
    if args == [] {
      RunNone(START);
    } else {
      var init, last := args[..|args| - 1], args[|args| - 1];
      CommandReads(init);
      var r := Run(START, Command(init)).value;
      var sep := if |args| > 1 then " " else "";
      var clean := Reader(NonEmpty(init), None, Plain);
      if |args| > 1 {
        RunBlank(r);
      } else {
        RunNone(START);
      }
      RunAppend(START, Command(init), sep);
      RunAppend(START, Command(init) + sep, Quoted(last));
      if last == "" {
        QuotedEmpty();
        RunNone(clean);
      } else {
        QuotedReads(NonEmpty(init), last);
      }
    }
  }

  lemma RunNone(r: Reader)
    ensures Run(r, "") == Some(r)
  {
  }

  lemma QuotedEmpty()
    ensures Quoted("") == ""
  {
  }

  /**
   With arguments that are safe or empty, the text reads back as the non-empty
   ones: an empty argument is lost.
   */
  lemma CommandKeepsNonEmpty(args: seq<string>)
    requires SafeOrEmpty(args)
    ensures Read(Command(args)) == Some(NonEmpty(args))
  {
    CommandReads(args);
  }

  lemma {:induction false} NonEmptyAll(args: seq<string>)
    requires forall i :: 0 <= i < |args| ==> args[i] != ""
    ensures NonEmpty(args) == args
  {
    if args == [] {
    } else {
      NonEmptyAll(args[..|args| - 1]);
    }
  }

  // ----- CommandString, backwards

  /** Whatever is read from here on, word i will not be x. */
  ghost predicate Committed(r: Reader, i: nat, x: string) {
    if |r.words| > i then r.words[i] != x
    else |r.words| == i && r.word.Some? && !(r.word.value <= x)
  }

  lemma CommittedStep(r: Reader, c: char, i: nat, x: string)
    requires Committed(r, i, x) && Step(r, c).Some?
    ensures Committed(Step(r, c).value, i, x)
  {
    if |r.words| == i {
      var w := r.word.value;
      assert forall s :: w + s <= x ==> w <= x;
    }
  }

  lemma {:induction false} CommittedStays(r: Reader, text: string, i: nat, x: string)
    requires Committed(r, i, x)
    ensures Run(r, text) == None || Committed(Run(r, text).value, i, x)
    decreases |text|
  {
    hide Step, Committed;
    if text == "" {
    } else {
      CommittedStays(r, text[..|text| - 1], i, x);
      var mid := Run(r, text[..|text| - 1]);
      if Run(r, text).Some? {
        CommittedStep(mid.value, text[|text| - 1], i, x);
      }
    }
  }

  /** An unquoted single quote at position p, and nothing read since. */
  ghost predicate Hanging(r: Reader, i: nat, x: string, p: nat) {
    p < |x| && |r.words| == i && r.word == Some(x[..p]) && (r.mode == Plain || r.mode == Single)
  }

  lemma HangingStep(r: Reader, c: char, i: nat, x: string, p: nat)
    requires Hanging(r, i, x, p) && x[p] == '\'' && c !in "\t \"\\" && Step(r, c).Some?
    ensures Hanging(Step(r, c).value, i, x, p) || Committed(Step(r, c).value, i, x)
  {
    assert x[..p] + "" == x[..p];
    if c != '\'' {
      assert (x[..p] + [c])[p] == c;
    }
  }

  lemma {:induction false} HangingStays(r: Reader, text: string, i: nat, x: string, p: nat)
    requires Hanging(r, i, x, p) && x[p] == '\''
    requires forall j :: 0 <= j < |text| ==> text[j] !in "\t \"\\"
    ensures Run(r, text) == None || Hanging(Run(r, text).value, i, x, p) || Committed(Run(r, text).value, i, x)
    decreases |text|
  {
    hide Step, Committed, Hanging;
    if text == "" {
    } else {
      var before, c := text[..|text| - 1], text[|text| - 1];
      HangingStays(r, before, i, x, p);
      var mid := Run(r, before);
      if Run(r, text).Some? {
        if Committed(mid.value, i, x) {
          CommittedStep(mid.value, c, i, x);
        } else {
          HangingStep(mid.value, c, i, x, p);
        }
      }
    }
  }

  /** Reading has failed, is unfinished, or has word i other than x. */
  ghost predicate Misread(e: Option<Reader>, i: nat, x: string) {
    e == None || e.value.mode != Plain || |Flush(e.value).words| <= i || Flush(e.value).words[i] != x
  }

  /** With a separator or the end after it, the hanging word is wrong for good. */
  lemma HangingEnds(r: Reader, tail: string, i: nat, x: string, p: nat)
    requires (Hanging(r, i, x, p) && x[p] == '\'') || Committed(r, i, x)
    requires tail == "" || tail[0] == ' '
    ensures Misread(Run(r, tail), i, x)
  {
    if tail != "" && Hanging(r, i, x, p) {
      RunOne(r, ' ');
      assert [' '] + tail[1..] == tail;
      RunAppend(r, [' '], tail[1..]);
      var next := Step(r, ' ').value;
      assert (x[..p] + [' '])[p] == ' ';
      CommittedStays(next, tail[1..], i, x);
    } else if Committed(r, i, x) {
      CommittedStays(r, tail, i, x);
    }
  }

  /** The text of arguments that follow others. */
  function Rest(args: seq<string>): (text: string)
    ensures text == "" || text[0] == ' '
  {
    if args == [] then "" else " " + Quoted(args[0]) + Rest(args[1..])
  }

  lemma {:induction false} CommandRest(args: seq<string>, k: nat)
    requires 1 <= k <= |args|
    ensures Command(args) == Command(args[..k]) + Rest(args[k..])
    decreases |args| - k
  {
    hide Command, Quoted;
    if k == |args| {
      assert args[..k] == args;
      assert Command(args) + "" == Command(args);
    } else {
      CommandRest(args, k + 1);
      CommandSnoc(args[..k], args[k]);
      assert args[..k] + [args[k]] == args[..k + 1];
      assert args[k..][1..] == args[k + 1..];
      Reassociate(Command(args[..k]), Quoted(args[k]), Rest(args[k + 1..]));
    }
  }

  lemma Reassociate(a: string, b: string, c: string)
    ensures a + " " + b + c == a + (" " + b + c)
  {
  }

  lemma {:induction false} EscapedStops(ws: seq<string>, w: string, arg: string)
    requires !(NulFree(arg) && '`' !in arg)
    ensures Run(Reader(ws, Some(w), Double), Escaped(arg)) == None
    decreases |arg|
  {
    hide Run, Escaped;
    var r := Reader(ws, Some(w), Double);
    var t, c := arg[..|arg| - 1], arg[|arg| - 1];
    EscapedSnoc(arg);
    RunAppend(r, Escaped(t), EscapedChar(c));
    assert t + [c] == arg;
    if NulFree(t) && '`' !in t {
      EscapedReads(ws, w, t);
      assert EscapedChar(c) == [c];
      RunOne(Reader(ws, Some(w + t), Double), c);
    } else {
      EscapedStops(ws, w, t);
    }
  }

  /** The first character that does not read as itself. */
  lemma FirstOdd(arg: string) returns (p: nat)
    requires exists i :: 0 <= i < |arg| && !Ordinary(arg[i])
    ensures p < |arg| && !Ordinary(arg[p]) && forall i :: 0 <= i < p ==> Ordinary(arg[i])
  {
    p := 0;
    while Ordinary(arg[p])
      invariant p < |arg| && (forall i :: 0 <= i < p ==> Ordinary(arg[i]))
      invariant exists i :: p <= i < |arg| && !Ordinary(arg[i])
      decreases |arg| - p
    {
      p := p + 1;
    }
  }

  /** What an odd character does outside quotes: it stops the reader, or is a single quote and opens one. */
  lemma OddStep(ws: seq<string>, pre: string, c: char)
    requires !Ordinary(c) && !IsSpace(c) && !Escapes(c)
    ensures Step(Reader(ws, if pre == "" then None else Some(pre), Plain), c)
         == if c == '\'' then Some(Reader(ws, Some(pre), Single)) else None
  {
    assert pre + "" == pre;
  }

  lemma PlainMisread(ws: seq<string>, arg: string, tail: string, p: nat)
    requires !NeedsQuotes(arg) && p < |arg| && !Ordinary(arg[p]) && (forall i :: 0 <= i < p ==> Ordinary(arg[i]))
    requires tail == "" || tail[0] == ' '
    ensures Misread(Run(Reader(ws, None, Plain), arg + tail), |ws|, arg)
  {
    hide Run, Step, Ordinary, Special, IsSpace, Hanging, Committed;
    var r, pre, rest := Reader(ws, None, Plain), arg[..p], arg[p + 1..];
    var at := Reader(ws, if pre == "" then None else Some(pre), Plain);
    OrdinaryReads(ws, pre);
    RunAppend(r, pre, [arg[p]]);
    RunOne(at, arg[p]);
    OddStep(ws, pre, arg[p]);
    RunAppend(r, pre + [arg[p]], rest + tail);
    assert pre + [arg[p]] + (rest + tail) == arg + tail;
    if arg[p] == '\'' {
      HangMisread(ws, arg, tail, p);
    }
  }

  lemma HangMisread(ws: seq<string>, arg: string, tail: string, p: nat)
    requires !NeedsQuotes(arg) && p < |arg| && arg[p] == '\'' && (tail == "" || tail[0] == ' ')
    ensures Misread(Run(Reader(ws, Some(arg[..p]), Single), arg[p + 1..] + tail), |ws|, arg)
  {
    hide Run, Step;
    var open, rest := Reader(ws, Some(arg[..p]), Single), arg[p + 1..];
    RunAppend(open, rest, tail);
    forall j | 0 <= j < |rest|
      ensures rest[j] !in "\t \"\\"
    {
      assert rest[j] == arg[p + 1 + j] && !IsSpace(arg[p + 1 + j]) && !Escapes(arg[p + 1 + j]);
    }
    HangingStays(open, rest, |ws|, arg, p);
    if Run(open, rest).Some? {
      HangingEnds(Run(open, rest).value, tail, |ws|, arg, p);
    }
  }

  lemma UnsafeMisread(ws: seq<string>, arg: string, tail: string)
    requires arg != "" && !Safe(arg) && (tail == "" || tail[0] == ' ')
    ensures Misread(Run(Reader(ws, None, Plain), Quoted(arg) + tail), |ws|, arg)
  {
    hide Run, Step, Ordinary;
    var r := Reader(ws, None, Plain);
    if NeedsQuotes(arg) {
      EscapedStops(ws, "", arg);
      InQuotes(ws, Escaped(arg), None);
      RunAppend(r, Quoted(arg), tail);
    } else {
      EscapedPlain(arg);
      var p := FirstOdd(arg);
      PlainMisread(ws, arg, tail, p);
    }
  }

  /** What is read before argument i. */
  lemma BeforeArg(args: seq<string>)
    requires forall j :: 0 <= j < |args| ==> Safe(args[j])
    ensures Run(START, Command(args) + if args != [] then " " else "") == Some(Reader(args, None, Plain))
  {
    hide Run, Step;
    CommandReads(args);
    NonEmptyAll(args);
    RunAppend(START, Command(args), if args != [] then " " else "");
    if args == [] {
      RunNone(START);
    } else {
      RunBlank(Run(START, Command(args)).value);
    }
  }

  lemma FirstUnsafe(args: seq<string>) returns (i: nat)
    requires exists j :: 0 <= j < |args| && !Safe(args[j])
    ensures i < |args| && !Safe(args[i]) && forall j :: 0 <= j < i ==> Safe(args[j])
  {
    i := 0;
    while Safe(args[i])
      invariant i < |args| && (forall j :: 0 <= j < i ==> Safe(args[j]))
      invariant exists j :: i <= j < |args| && !Safe(args[j])
      decreases |args| - i
    {
      i := i + 1;
    }
  }

  /** Reading has failed, is unfinished, or has given other words. */
  ghost predicate NotRead(e: Option<Reader>, args: seq<string>) {
    e == None || e.value.mode != Plain || Flush(e.value).words != args
  }

  lemma UnsafeNotRead(args: seq<string>, i: nat)
    requires i < |args| && args[i] != "" && !Safe(args[i]) && forall j :: 0 <= j < i ==> Safe(args[j])
    ensures Read(Command(args)) != Some(args)
  {
    hide Run, Step, Safe, Command, Quoted;
    var init, arg, rest := args[..i], args[i], Rest(args[i + 1..]);
    var sep := if init != [] then " " else "";
    BeforeArg(init);
    UnsafeMisread(init, arg, rest);
    RunAppend(START, Command(init) + sep, Quoted(arg) + rest);
    assert Command(args) == Command(init) + sep + (Quoted(arg) + rest) by {
      CommandRest(args, i + 1);
      CommandSnoc(init, arg);
      assert init + [arg] == args[..i + 1];
    }
  }

  // ----- an empty argument is lost for good

  predicate AllQuotes(s: string) {
    forall i :: 0 <= i < |s| ==> s[i] == '\''
  }

  /** Single quotes have opened and closed around nothing. */
  predicate Loose(r: Reader, ws: seq<string>) {
    r.words == ws && r.word == Some("") && (r.mode == Plain || r.mode == Single)
  }

  lemma LooseStep(r: Reader, ws: seq<string>, c: char, x: string)
    requires Loose(r, ws) && AllQuotes(x) && c !in "\t \"\\" && Step(r, c).Some?
    ensures if c == '\'' then Loose(Step(r, c).value, ws) else Committed(Step(r, c).value, |ws|, x)
  {
    assert "" + "" == "";
    assert ("" + [c])[0] == c;
  }

  lemma {:induction false} LooseStays(r: Reader, ws: seq<string>, text: string, x: string)
    requires Loose(r, ws) && AllQuotes(x) && forall j :: 0 <= j < |text| ==> text[j] !in "\t \"\\"
    ensures var e := Run(r, text);
            e == None || Committed(e.value, |ws|, x) || (Loose(e.value, ws) && AllQuotes(text))
    decreases |text|
  {
    hide Step, Committed, Loose;
    if text == "" {
    } else {
      var before, c := text[..|text| - 1], text[|text| - 1];
      LooseStays(r, ws, before, x);
      var mid := Run(r, before);
      if Run(r, text).Some? {
        if Committed(mid.value, |ws|, x) {
          CommittedStep(mid.value, c, |ws|, x);
        } else {
          LooseStep(mid.value, ws, c, x);
        }
      }
    }
  }

  lemma SafeNotQuotes(arg: string)
    requires Safe(arg)
    ensures !AllQuotes(arg)
  {
    if NeedsQuotes(arg) {
      var i :| 0 <= i < |arg| && (IsSpace(arg[i]) || Escapes(arg[i]));
      assert arg[i] != '\'';
    } else {
      assert Ordinary(arg[0]);
    }
  }

  lemma BareAgainstQuotes(ws: seq<string>, arg: string, x: string, p: nat)
    requires !NeedsQuotes(arg) && p < |arg| && !Ordinary(arg[p]) && (forall i :: 0 <= i < p ==> Ordinary(arg[i]))
    requires AllQuotes(x)
    ensures var e := Run(Reader(ws, None, Plain), arg);
            e == None || Committed(e.value, |ws|, x) || (Loose(e.value, ws) && AllQuotes(arg))
  {
    hide Run, Step, Special, IsSpace;
    var r, pre, rest := Reader(ws, None, Plain), arg[..p], arg[p..];
    OrdinaryReads(ws, pre);
    RunAppend(r, pre, rest);
    assert pre + rest == arg;
    if p > 0 {
      assert pre[0] == arg[0] && Ordinary(arg[0]);
      CommittedStays(Reader(ws, Some(pre), Plain), rest, |ws|, x);
    } else {
      OddStep(ws, "", arg[0]);
      RunOne(r, arg[0]);
      RunAppend(r, [arg[0]], arg[1..]);
      assert [arg[0]] + arg[1..] == arg;
      BareTail(arg);
      if arg[0] == '\'' {
        LooseStays(Reader(ws, Some(""), Single), ws, arg[1..], x);
      }
    }
  }

  lemma BareTail(arg: string)
    requires arg != "" && !NeedsQuotes(arg)
    ensures forall j :: 0 <= j < |arg[1..]| ==> arg[1..][j] !in "\t \"\\"
  {
    forall j | 0 <= j < |arg[1..]|
      ensures arg[1..][j] !in "\t \"\\"
    {
      assert arg[1..][j] == arg[j + 1] && !IsSpace(arg[j + 1]) && !Escapes(arg[j + 1]);
    }
  }

  /** Read as a word that should be quotes only, an argument gives something else, or nothing if it is quotes itself. */
  lemma ArgAgainstQuotes(ws: seq<string>, arg: string, x: string)
    requires arg != "" && AllQuotes(x)
    ensures var e := Run(Reader(ws, None, Plain), Quoted(arg));
            e == None || Committed(e.value, |ws|, x) || (Loose(e.value, ws) && AllQuotes(arg))
  {
    hide Run, Step, Ordinary;
    if Safe(arg) {
      QuotedReads(ws, arg);
      SafeNotQuotes(arg);
    } else if NeedsQuotes(arg) {
      EscapedStops(ws, "", arg);
      InQuotes(ws, Escaped(arg), None);
    } else {
      EscapedPlain(arg);
      var p := FirstOdd(arg);
      BareAgainstQuotes(ws, arg, x, p);
    }
  }

  lemma CommittedNotRead(r: Reader, text: string, args: seq<string>, m: nat)
    requires m < |args| && Committed(r, m, args[m])
    ensures NotRead(Run(r, text), args)
  {
    hide Run, Step;
    CommittedStays(r, text, m, args[m]);
  }

  /** A blank first makes no difference to a reader at the start of a word. */
  lemma RestReads(r: Reader, args: seq<string>)
    requires r.mode == Plain && args != []
    ensures Run(r, Rest(args)) == Run(Flush(r), Quoted(args[0]) + Rest(args[1..]))
  {
    hide Run, Step, Quoted;
    RunBlank(r);
    RunAppend(r, " ", Quoted(args[0]) + Rest(args[1..]));
    assert " " + (Quoted(args[0]) + Rest(args[1..])) == Rest(args);
  }

  /** After quotes around nothing, the word is empty or wrong; if empty, reading goes on at the next. */
  lemma LooseThenRest(args: seq<string>, m: nat, k: nat, e: Reader)
    requires m < k <= |args| && m + 1 < |args| && Loose(e, args[..m]) && AllQuotes(args[m])
    requires args[m] == "" ==> NotRead(Run(Reader(args[..m + 1], None, Plain), Rest(args[k..])), args)
    ensures NotRead(Run(e, Rest(args[k..])), args)
  {
    hide Run, Step, Quoted;
    if k == |args| {
      RunNone(e);
    } else if e.mode == Single {
      var rest := Rest(args[k..]);
      SingleBlank(e, args[..m], args[m]);
      RunAppend(e, [' '], rest[1..]);
      assert [' '] + rest[1..] == rest;
      CommittedNotRead(Run(e, [' ']).value, rest[1..], args, m);
    } else {
      RestReads(e, args[k..]);
      if args[m] == "" {
        assert args[..m] + [""] == args[..m + 1];
        RestReads(Reader(args[..m + 1], None, Plain), args[k..]);
      } else {
        CommittedNotRead(Flush(e), Quoted(args[k..][0]) + Rest(args[k..][1..]), args, m);
      }
    }
  }

  lemma SingleBlank(e: Reader, ws: seq<string>, x: string)
    requires Loose(e, ws) && e.mode == Single && AllQuotes(x)
    ensures Run(e, [' ']).Some? && Committed(Run(e, [' ']).value, |ws|, x)
  {
    RunOne(e, ' ');
    assert ("" + [' '])[0] == ' ';
  }

  /** One more argument, where word m should be quotes only. */
  lemma NextArg(args: seq<string>, m: nat, k: nat)
    requires m < k < |args| && AllQuotes(args[m])
    requires args[k] == "" ==> NotRead(Run(Reader(args[..m], None, Plain), Rest(args[k + 1..])), args)
    requires args[k] != "" && AllQuotes(args[k]) && args[m] == "" ==>
               NotRead(Run(Reader(args[..m + 1], None, Plain), Rest(args[k + 1..])), args)
    ensures NotRead(Run(Reader(args[..m], None, Plain), Rest(args[k..])), args)
  {
    hide Run, Step, Quoted, Committed, Loose;
    var r, arg, rest := Reader(args[..m], None, Plain), args[k], Rest(args[k + 1..]);
    RestReads(r, args[k..]);
    assert args[k..][1..] == args[k + 1..];
    RunAppend(r, Quoted(arg), rest);
    if arg == "" {
      QuotedEmpty();
      RunNone(r);
    } else {
      ArgAgainstQuotes(args[..m], arg, args[m]);
      var e := Run(r, Quoted(arg));
      if e.Some? {
        if Committed(e.value, m, args[m]) {
          CommittedNotRead(e.value, rest, args, m);
        } else {
          LooseThenRest(args, m, k + 1, e.value);
        }
      }
    }
  }

  /** Argument j is quotes only; it cannot be made up for once the words before it have been read. */
  lemma {:induction false} ChainNotRead(args: seq<string>, j: nat, m: nat, k: nat)
    requires m <= j < k <= |args| && args[j] != "" && AllQuotes(args[j])
    requires forall l :: m <= l < j ==> args[l] == ""
    ensures NotRead(Run(Reader(args[..m], None, Plain), Rest(args[k..])), args)
    decreases |args| - k
  {
    hide Run, Step, Quoted;
    if k == |args| {
      RunNone(Reader(args[..m], None, Plain));
    } else {
      ChainNotRead(args, j, m, k + 1);
      if m < j {
        ChainNotRead(args, j, m + 1, k + 1);
      }
      NextArg(args, m, k);
    }
  }

  /** Argument i is empty, and so are those up to k. */
  lemma {:induction false} GapNotRead(args: seq<string>, i: nat, k: nat)
    requires i < k <= |args| && forall l :: i <= l < k ==> args[l] == ""
    ensures NotRead(Run(Reader(args[..i], None, Plain), Rest(args[k..])), args)
    decreases |args| - k
  {
    hide Run, Step, Quoted;
    if k == |args| {
      RunNone(Reader(args[..i], None, Plain));
    } else {
      if args[k] == "" {
        GapNotRead(args, i, k + 1);
      } else if AllQuotes(args[k]) {
        ChainNotRead(args, k, i + 1, k + 1);
      }
      NextArg(args, i, k);
    }
  }

  lemma EmptyText(args: seq<string>, i: nat)
    requires i < |args| && args[i] == ""
    ensures Command(args) == Command(args[..i]) + (if i > 0 then " " else "") + Rest(args[i + 1..])
  {
    hide Command, Quoted, Rest;
    CommandRest(args, i + 1);
    CommandSnoc(args[..i], "");
    QuotedEmpty();
    assert args[..i] + [""] == args[..i + 1];
    var text := Command(args[..i]) + if i > 0 then " " else "";
    assert text + "" == text;
  }

  lemma EmptyNotRead(args: seq<string>, i: nat)
    requires i < |args| && args[i] == "" && forall j :: 0 <= j < i ==> Safe(args[j])
    ensures Read(Command(args)) != Some(args)
  {
    hide Run, Step, Safe, Command, Quoted, Rest;
    BeforeArg(args[..i]);
    GapNotRead(args, i, i + 1);
    EmptyText(args, i);
    RunAppend(START, Command(args[..i]) + (if i > 0 then " " else ""), Rest(args[i + 1..]));
  }

  /**
   Round trip: the text reads back as the arguments exactly if all of them are
   safe.
   */
  lemma CommandRoundTrip(args: seq<string>)
    ensures Read(Command(args)) == Some(args) <==> forall i :: 0 <= i < |args| ==> Safe(args[i])
  {
    hide Run, Step, Command, Quoted, NeedsQuotes;
    if forall i :: 0 <= i < |args| ==> Safe(args[i]) {
      CommandKeepsNonEmpty(args);
      NonEmptyAll(args);
    } else {
      var i := FirstUnsafe(args);
      if args[i] == "" {
        EmptyNotRead(args, i);
      } else {
        UnsafeNotRead(args, i);
      }
    }
  }

  /**
   Arguments whose only characters with a meaning to the shell are white space,
   double quotes, dollars and backslashes read back.
   */
  lemma CommandRoundTripPlain(args: seq<string>)
    requires forall i :: 0 <= i < |args| ==> args[i] != ""
    requires forall i, j :: 0 <= i < |args| && 0 <= j < |args[i]| ==>
               args[i][j] != NUL && args[i][j] !in "|&;<>()`*?[#~=%'"
    ensures Read(Command(args)) == Some(args)
  {
    forall i | 0 <= i < |args|
      ensures Safe(args[i])
    {
      PlainIsSafe(args[i]);
    }
    CommandRoundTrip(args);
  }

  lemma PlainIsSafe(arg: string)
    requires arg != "" && forall j :: 0 <= j < |arg| ==> arg[j] != NUL && arg[j] !in "|&;<>()`*?[#~=%'"
    ensures Safe(arg)
  {
    if !NeedsQuotes(arg) {
      forall j | 0 <= j < |arg|
        ensures Ordinary(arg[j])
      {
        assert !IsSpace(arg[j]) && !Escapes(arg[j]);
      }
    }
  }

  /** The code points of the characters an argument is quoted for. */
  predicate Quotable(n: int) {
    || 0x09 <= n <= 0x0D || n == 0x20 || n == 0x85 || n == 0xA0 || n == 0x1680 || 0x2000 <= n <= 0x200A
    || n == 0x2028 || n == 0x2029 || n == 0x202F || n == 0x205F || n == 0x3000
    || n == 0x22 || n == 0x24 || n == 0x5C
  }

  /** An argument is written between double quotes exactly if it has one of those characters, and else as it is. */
  lemma QuotedExactly(arg: string)
    ensures if exists i :: 0 <= i < |arg| && Quotable(arg[i] as int)
            then |Quoted(arg)| >= 2 && Quoted(arg)[0] == '"' && Quoted(arg)[|Quoted(arg)| - 1] == '"'
            else Quoted(arg) == arg
  {
    forall i | 0 <= i < |arg|
      ensures IsSpace(arg[i]) || Escapes(arg[i]) <==> Quotable(arg[i] as int)
    {
      SpaceCodes(arg[i]);
    }
    if !NeedsQuotes(arg) {
      EscapedPlain(arg);
    }
  }

  lemma SpaceCodes(c: char)
    ensures IsSpace(c) || Escapes(c) <==> Quotable(c as int)
  {
  }

  /** Not every argument that needs quotes gets them: a single quote, or an empty argument, goes out bare. */
  lemma QuotesMissing()
    ensures !NeedsQuotes("'") && Read(Command(["'"])) != Some(["'"])
    ensures Read(Command([""])) == Some([])
  {
  }
}
