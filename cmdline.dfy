/**
 * parseline: splits a command line into arguments. Spaces separate
 * arguments, an argument that starts with a single quote runs to the next
 * single quote, and a last argument starting with '&' asks for a
 * background job and is dropped. The C code walks a pointer over a
 * NUL-terminated copy of the line and writes '\0' over each delimiter.
 */
module CommandLine {
  import opened Options

  const MAXLINE: nat := 1024

  /** One argument, and whether it was written between single quotes. */
  datatype Token = Token(text: string, quoted: bool)

  /** Where the next argument starts and the delimiter that ends it, if any. */
  datatype Span = Span(start: nat, delim: Option<nat>, quoted: bool)

  /** The line the tokenizer sees: the input with its last character (the newline) turned into a space. */
  function Line(cmdline: string): (line: string)
    requires |cmdline| >= 1
    ensures |line| == |cmdline| && line[|line| - 1] == ' '
  {
    cmdline[..|cmdline| - 1] + " "
  }

  /** The first index at or after i that is not a space. */
  function SkipFrom(s: string, i: nat): (j: nat)
    requires i <= |s|
    ensures i <= j <= |s| && (j == |s| || s[j] != ' ')
    decreases |s| - i
  {
    if i == |s| || s[i] != ' ' then i else SkipFrom(s, i + 1)
  }

  /** Everything SkipFrom passes over is a space. */
  lemma {:induction false} SkipFromSpaces(s: string, i: nat)
    requires i <= |s|
    ensures forall k :: i <= k < SkipFrom(s, i) ==> s[k] == ' '
    decreases |s| - i
  {
    if i < |s| && s[i] == ' ' {
      SkipFromSpaces(s, i + 1);
    }
  }

  /** strchr from index i: the first occurrence of c at or after i. */
  function IndexFrom(s: string, c: char, i: nat): (r: Option<nat>)
    requires i <= |s|
    ensures r.Some? ==> i <= r.value < |s| && s[r.value] == c
    decreases |s| - i
  {
    if i == |s| then None else if s[i] == c then Some(i) else IndexFrom(s, c, i + 1)
  }

  /** The next argument after position i: skip spaces, then a quoted or a plain argument. */
  function SpanAt(s: string, i: nat): (sp: Span)
    requires i <= |s|
    ensures i <= sp.start <= |s|
    ensures sp.delim.Some? ==> sp.start <= sp.delim.value < |s|
  {
    var j := SkipFrom(s, i);
    if j < |s| && s[j] == '\'' then Span(j + 1, IndexFrom(s, '\'', j + 1), true)
    else Span(j, IndexFrom(s, ' ', j), false)
  }

  /** The arguments from position i on; an argument without its delimiter ends the list. */
  function TokensFrom(s: string, i: nat): (r: seq<Token>)
    requires i <= |s|
    ensures |r| <= |s| - i
    decreases |s| - i
  {
    var sp := SpanAt(s, i);
    match sp.delim
    case None => []
    case Some(d) => [Token(s[sp.start..d], sp.quoted)] + TokensFrom(s, d + 1)
  }

  /** The arguments' texts, in order. */
  function Texts(ts: seq<Token>): (r: seq<string>)
    ensures |r| == |ts|
  {
    if ts == [] then [] else [ts[0].text] + Texts(ts[1..])
  }

  /** What parseline returns: the background flag and the arguments. */
  function Parse(cmdline: string): (r: (bool, seq<string>))
    requires |cmdline| >= 1
    ensures r.1 == [] ==> r.0
    ensures |r.1| <= |cmdline|
  {
    var args := Texts(TokensFrom(Line(cmdline), 0));
    if args == [] then (true, [])
    else
      var last := args[|args| - 1];
      if last != "" && last[0] == '&' then (true, args[..|args| - 1]) else (false, args)
  }

  // ----- lemmas -----

  /** A plain argument is non-empty and holds no space; a quoted one holds no quote. */
  predicate WellShaped(t: Token)
  {
    if t.quoted then '\'' !in t.text else t.text != "" && ' ' !in t.text
  }

  /** Every argument the tokenizer produces is well shaped. */
  lemma {:induction false} TokenShape(s: string, i: nat)
    requires i <= |s|
    ensures forall k :: 0 <= k < |TokensFrom(s, i)| ==> WellShaped(TokensFrom(s, i)[k])
    decreases |s| - i
  {
    var sp := SpanAt(s, i);
    if sp.delim.Some? {
      var d := sp.delim.value;
      TokenShape(s, d + 1);
      var text := s[sp.start..d];
      var c := if sp.quoted then '\'' else ' ';
      IndexFromFirst(s, c, sp.start);
      assert forall k :: 0 <= k < |text| ==> text[k] == s[sp.start + k] && text[k] != c;
      assert !sp.quoted ==> s[sp.start] != ' ';
      assert WellShaped(Token(text, sp.quoted));
    }
  }

  /** A line of nothing but spaces has no arguments and counts as a background request. */
  lemma BlankLine(cmdline: string)
    requires |cmdline| >= 1
    requires forall k :: 0 <= k < |cmdline| - 1 ==> cmdline[k] == ' '
    ensures Parse(cmdline) == (true, [])
  {
    var line := Line(cmdline);
    assert SkipFrom(line, 0) == |line|;
  }

  /** A word a user can type without quoting: non-empty, no space, no leading quote. */
  predicate PlainWord(w: string)
  {
    w != "" && ' ' !in w && w[0] != '\''
  }

  /** The words, each followed by one space. */
  function Joined(ws: seq<string>): (s: string)
    ensures ws != [] ==> |s| >= 1 && s[|s| - 1] == ' '
  {
    if ws == [] then "" else ws[0] + " " + Joined(ws[1..])
  }

  /** A slice of s that spells w, a space and rest. */
  lemma SpelledAt(s: string, i: nat, w: string, rest: string)
    requires i <= |s| && s[i..] == w + " " + rest
    ensures forall k :: 0 <= k < |w| ==> s[i + k] == w[k]
    ensures i + |w| < |s| && s[i + |w|] == ' '
    ensures s[i..i + |w|] == w && s[i + |w| + 1..] == rest
  {
    assert forall k :: 0 <= k < |w| ==> s[i..][k] == w[k];
    assert s[i..][|w|] == ' ';
  }

  /** strchr finds the first occurrence: no c lies between i and what it returns. */
  lemma {:induction false} IndexFromFirst(s: string, c: char, i: nat)
    requires i <= |s|
    ensures IndexFrom(s, c, i).Some? ==> forall k :: i <= k < IndexFrom(s, c, i).value ==> s[k] != c
    ensures IndexFrom(s, c, i).None? ==> forall k :: i <= k < |s| ==> s[k] != c
    decreases |s| - i
  {
    if i < |s| && s[i] != c {
      IndexFromFirst(s, c, i + 1);
    }
  }

  /** The first c at or after i is at j when j holds c and nothing between does. */
  lemma {:induction false} IndexAt(s: string, c: char, i: nat, j: nat)
    requires i <= j < |s| && s[j] == c
    requires forall k :: i <= k < j ==> s[k] != c
    ensures IndexFrom(s, c, i) == Some(j)
    decreases j - i
  {
    if i < j {
      IndexAt(s, c, i + 1, j);
    }
  }

  /** The arguments from i: the one the next span delimits, then those after its delimiter. */
  lemma TokenStep(s: string, i: nat, start: nat, d: nat, quoted: bool)
    requires i <= |s| && SpanAt(s, i) == Span(start, Some(d), quoted)
    ensures start <= d < |s|
    ensures Texts(TokensFrom(s, i)) == [s[start..d]] + Texts(TokensFrom(s, d + 1))
  {
    assert TokensFrom(s, i) == [Token(s[start..d], quoted)] + TokensFrom(s, d + 1);
  }

  /** An argument delimited at d, followed by the arguments after d, is what the tokenizer finds from i. */
  lemma ArgsCons(s: string, i: nat, d: nat, w: string, rest: seq<string>)
    requires i <= d < |s| && SpanAt(s, i) == Span(i, Some(d), false)
    requires s[i..d] == w && Texts(TokensFrom(s, d + 1)) == rest
    ensures Texts(TokensFrom(s, i)) == [w] + rest
  {
    TokenStep(s, i, i, d, false);
  }

  /** Where the first of several joined plain words lies, as the tokenizer finds it. */
  lemma JoinedSpan(s: string, i: nat, ws: seq<string>)
    requires i <= |s| && ws != [] && s[i..] == Joined(ws) && PlainWord(ws[0])
    ensures i + |ws[0]| < |s|
    ensures SpanAt(s, i) == Span(i, Some(i + |ws[0]|), false)
    ensures s[i..i + |ws[0]|] == ws[0] && s[i + |ws[0]| + 1..] == Joined(ws[1..])
  {
    var w := ws[0];
    SpelledAt(s, i, w, Joined(ws[1..]));
    assert SkipFrom(s, i) == i;
    assert forall k :: i <= k < i + |w| ==> s[k] != ' ' by {
      assert forall k :: 0 <= k < |w| ==> w[k] != ' ';
    }
    IndexAt(s, ' ', i, i + |w|);
    assert s[i] == w[0] != '\'';
  }

  /** Plain words joined by spaces come back as the same words, none quoted. */
  lemma {:induction false} TokensOfJoined(s: string, i: nat, ws: seq<string>)
    requires i <= |s| && s[i..] == Joined(ws)
    requires forall k :: 0 <= k < |ws| ==> PlainWord(ws[k])
    ensures Texts(TokensFrom(s, i)) == ws
    decreases ws
  {
    if ws == [] {
      assert SkipFrom(s, i) == |s|;
    } else {
      var w, d := ws[0], i + |ws[0]|;
      JoinedSpan(s, i, ws);
      TokensOfJoined(s, d + 1, ws[1..]);
      ArgsCons(s, i, d, w, ws[1..]);
      assert ws == [w] + ws[1..];
    }
  }

  /**
   * The line a user types as plain words separated by single spaces and
   * ended by a newline parses back to those words; a last word starting
   * with '&' is the background request and is dropped.
   */
  lemma ParseJoined(ws: seq<string>)
    requires ws != []
    requires forall k :: 0 <= k < |ws| ==> PlainWord(ws[k])
    ensures var j := Joined(ws);
      var last := ws[|ws| - 1];
      Parse(j[..|j| - 1] + "\n") ==
        if last != "" && last[0] == '&' then (true, ws[..|ws| - 1]) else (false, ws)
  {
    var j := Joined(ws);
    var cmdline := j[..|j| - 1] + "\n";
    assert Line(cmdline) == j;
    TokensOfJoined(j, 0, ws);
  }

  // ----- the buffer walk -----

  /** One more argument cut from the line keeps the collected arguments a prefix of the tokens. */
  lemma ArgsStep(argv: seq<string>, arg: string, line: string, p: nat, start: nat, d: nat, quoted: bool)
    requires p <= |line|
    requires SpanAt(line, p) == Span(start, Some(d), quoted)
    requires arg == line[start..d]
    ensures argv + Texts(TokensFrom(line, p)) == (argv + [arg]) + Texts(TokensFrom(line, d + 1))
  {
    TokenStep(line, p, start, d, quoted);
    ghost var later := Texts(TokensFrom(line, d + 1));
    assert argv + [arg] + later == argv + ([arg] + later);
  }

  /** With no delimiter left, the collected arguments are all of them. */
  lemma ArgsDone(argv: seq<string>, line: string, p: nat)
    requires p <= |line|
    requires SpanAt(line, p).delim.None?
    ensures argv + Texts(TokensFrom(line, p)) == argv
  {
    assert TokensFrom(line, p) == [];
  }

  /** buf holds line from index p on, terminated by '\0' (what is before p may have been overwritten). */
  ghost predicate Holds(buf: array<char>, line: string, p: nat)
    reads buf
  {
    |line| < buf.Length && buf[|line|] == '\0' && p <= |line| &&
    (forall k :: 0 <= k < |line| ==> line[k] != '\0') &&
    (forall k :: p <= k < |line| ==> buf[k] == line[k])
  }

  /** Where a buffer agrees with the line from p on, so do its slices. */
  lemma SliceAgrees(buf: seq<char>, line: string, p: nat, a: nat, b: nat)
    requires p <= a <= b <= |line| < |buf|
    requires forall k :: p <= k < |line| ==> buf[k] == line[k]
    ensures buf[a..b] == line[a..b]
  {
  }

  /** strchr(buf + q, c) for a character c other than '\0'. */
  method StrChr(buf: array<char>, q: nat, c: char, ghost line: string) returns (r: Option<nat>)
    requires c != '\0' && Holds(buf, line, q)
    ensures r == IndexFrom(line, c, q)
  {
    var i := q;
    while buf[i] != c && buf[i] != '\0'
      invariant q <= i <= |line|
      invariant IndexFrom(line, c, q) == IndexFrom(line, c, i)
      decreases |line| - i
    {
      i := i + 1;
    }
    if buf[i] == c {
      return Some(i);
    }
    return None;
  }

  /** The step parseline makes before each argument: skip spaces, then look for the delimiter. */
  method NextSpan(buf: array<char>, p: nat, ghost line: string) returns (sp: Span)
    requires Holds(buf, line, p)
    ensures sp == SpanAt(line, p)
  {
    var q := p;
    while buf[q] != '\0' && buf[q] == ' '
      invariant p <= q <= |line|
      invariant SkipFrom(line, p) == SkipFrom(line, q)
      decreases |line| - q
    {
      q := q + 1;
    }
    if buf[q] == '\'' {
      q := q + 1;
      var d := StrChr(buf, q, '\'', line);
      sp := Span(q, d, true);
    } else {
      var d := StrChr(buf, q, ' ', line);
      sp := Span(q, d, false);
    }
  }

  /** The copy parseline works on: strcpy into a MAXLINE buffer, then the last character becomes a space. */
  method CopyLine(cmdline: string) returns (buf: array<char>)
    requires 1 <= |cmdline| < MAXLINE
    requires forall k :: 0 <= k < |cmdline| ==> cmdline[k] != '\0'
    ensures fresh(buf) && Holds(buf, Line(cmdline), 0)
  {
    buf := new char[MAXLINE];
    var n := |cmdline|;
    var k := 0;
    while k < n
      invariant 0 <= k <= n
      invariant forall m :: 0 <= m < k ==> buf[m] == cmdline[m]
    {
      buf[k] := cmdline[k];
      k := k + 1;
    }
    buf[n] := '\0';
    buf[n - 1] := ' ';
  }

  /** One argument: its text runs from start to the delimiter d, which is overwritten with '\0'. */
  method CutArg(buf: array<char>, start: nat, d: nat, ghost line: string, ghost p: nat) returns (arg: string)
    requires Holds(buf, line, p) && p <= start <= d < |line|
    modifies buf
    ensures arg == line[start..d]
    ensures Holds(buf, line, d + 1)
  {
    SliceAgrees(buf[..], line, p, start, d);
    arg := buf[start..d];
    buf[d] := '\0';
  }

  /** The argument loop of parseline. */
  method SplitArgs(buf: array<char>, ghost line: string) returns (argv: seq<string>)
    requires Holds(buf, line, 0)
    modifies buf
    ensures argv == Texts(TokensFrom(line, 0))
  {
    ghost var all := Texts(TokensFrom(line, 0));
    ghost var p := 0;
    var sp := NextSpan(buf, 0, line);
    argv := [];
    while sp.delim.Some?
      invariant Holds(buf, line, p)
      invariant sp == SpanAt(line, p)
      invariant argv + Texts(TokensFrom(line, p)) == all
      decreases |line| - p
    {
      var d := sp.delim.value;
      var arg := CutArg(buf, sp.start, d, line, p);
      ArgsStep(argv, arg, line, p, sp.start, d, sp.quoted);
      argv := argv + [arg];
      p := d + 1;
      sp := NextSpan(buf, d + 1, line);
    }
    ArgsDone(argv, line, p);
  }

  /** parseline: the flag and the arguments are those of Parse. */
  method ParseLine(cmdline: string) returns (bg: bool, argv: seq<string>)
    requires 1 <= |cmdline| < MAXLINE
    requires forall k :: 0 <= k < |cmdline| ==> cmdline[k] != '\0'
    ensures (bg, argv) == Parse(cmdline)
  {
    var buf := CopyLine(cmdline);
    argv := SplitArgs(buf, Line(cmdline));
    if argv == [] {
      return true, [];
    }
    bg := |argv[|argv| - 1]| > 0 && argv[|argv| - 1][0] == '&';
    if bg {
      argv := argv[..|argv| - 1];
    }
  }
}
