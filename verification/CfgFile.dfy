/** The configuration store of `cfgfile.c`: reading a file into the tree, and setting and getting values. */
module CfgFile {
  import opened Bytes
  import opened StringMap
  import opened Wrappers

  const MAX_CONFIG_LINE: nat := 2048

  const DIRECTIVES := [
    "interface", "dns-resolution", "port-resolution", "filter-code", "show-bars", "promiscuous",
    "hide-source", "hide-destination", "use-bytes", "sort", "line-display", "show-totals", "log-scale",
    "max-bandwidth", "net-filter", "net-filter6", "link-local", "port-display", "timed-output",
    "no-curses", "num-lines" ]

  // ----- lines -----

  /** How much one `fgets` takes: up to and with the first newline, at most `limit` characters. */
  function ChunkLength(file: string, limit: nat): (n: nat)
    ensures n <= |file| && n <= limit
    ensures file != "" && limit > 0 ==> n > 0
  {
    if file == "" || limit == 0 then 0
    else if file[0] == '\n' then 1
    else 1 + ChunkLength(file[1..], limit - 1)
  }

  /** Newlines at the end are cut off, but never the first character. */
  function Strip(line: string): (r: string)
    ensures |r| <= |line| && (line != "" ==> r != "")
  {
    if |line| > 1 && line[|line| - 1] == '\n' then Strip(line[..|line| - 1]) else line
  }

  predicate Continues(line: string)
  {
    line != "" && line[|line| - 1] == '\\'
  }

  /** A logical line, and the rest of the file. */
  datatype Read = Read(line: string, rest: string)

  /**
   Continuation lines.  The next chunk overwrites the backslash; `fgets` is given the room
   left after the line, and with room for the terminator only it takes nothing.  At the end
   of the file the backslash stays.
   */
  function Continue(line: string, file: string): (r: Read)
    requires 0 < |line| < MAX_CONFIG_LINE
    ensures 0 < |r.line| < MAX_CONFIG_LINE && |r.rest| <= |file|
    decreases |file|, |line|
  {
    if !Continues(line) then Read(line, file)
    else
      var room := MAX_CONFIG_LINE - |line|;
      if room > 1 && file == "" then Read(line, file)
      else
        var n := ChunkLength(file, room - 1);
        Continue(Strip(line[..|line| - 1] + file[..n]), file[n..])
  }

  /** One turn of the reading loop. */
  function ReadLine(file: string): (r: Read)
    requires file != ""
    ensures |r.rest| < |file| && 0 < |r.line| < MAX_CONFIG_LINE
  {
    var n := ChunkLength(file, MAX_CONFIG_LINE - 1);
    Continue(Strip(file[..n]), file[n..])
  }

  function Lines(file: string): seq<string>
    decreases |file|
  {
    if file == "" then []
    else
      var r := ReadLine(file);
      [r.line] + Lines(r.rest)
  }

  // ----- directives -----

  /** Length of the leading part whose characters are all (`inside`) or none of `set`. */
  function Span(s: string, chars: string, inside: bool): (n: nat)
    ensures n <= |s|
    ensures forall i :: 0 <= i < n ==> (s[i] in chars <==> inside)
    ensures n < |s| ==> (s[n] in chars <==> !inside)
  {
    if s == "" || (s[0] in chars) != inside then 0 else 1 + Span(s[1..], chars, inside)
  }

  function TrimRight(s: string): string
  {
    if |s| > 1 && s[|s| - 1] in " \t" then TrimRight(s[..|s| - 1]) else s
  }

  /** Comment, key, colon, value; None when the line sets nothing. */
  function ParseLine(line: string): Option<Item>
  {
    ParseText(line[..Span(line, "#\n", false)])
  }

  function ParseText(text: string): Option<Item>
  {
    var colon := Span(text, ":", false);
    var start := Span(text, " \t", true);
    var key := text[start..][..Span(text[start..], " \t:", false)];
    if colon == |text| || key == "" then None
    else
      var value := text[colon + 1..];
      Some(Item(key, TrimRight(value[Span(value, " \t", true)..])))
  }

  /** The valid directives of some lines, in order. */
  function Directives(lines: seq<string>): seq<Item>
  {
    if lines == [] then []
    else
      match ParseLine(lines[0])
      case None => Directives(lines[1..])
      case Some(d) => if d.key in DIRECTIVES then [d] + Directives(lines[1..]) else Directives(lines[1..])
  }

  /** Inserting in order, where the first value of a key stays. */
  function FirstWins(m: map<string, string>, ds: seq<Item>): map<string, string>
    decreases |ds|
  {
    if ds == [] then m
    else FirstWins(if ds[0].key in m then m else m[ds[0].key := ds[0].value], ds[1..])
  }

  /** Overriding in order, where the last value of a key stays. */
  function SetAll(m: map<string, string>, sets: seq<Item>): map<string, string>
  {
    if sets == [] then m
    else SetAll(m, sets[..|sets| - 1])[sets[|sets| - 1].key := sets[|sets| - 1].value]
  }

  function FirstOf(ds: seq<Item>, key: string): Option<string>
  {
    if ds == [] then None else if ds[0].key == key then Some(ds[0].value) else FirstOf(ds[1..], key)
  }

  function LastOf(ds: seq<Item>, key: string): Option<string>
  {
    if ds == [] then None
    else if ds[|ds| - 1].key == key then Some(ds[|ds| - 1].value)
    else LastOf(ds[..|ds| - 1], key)
  }

  function Get(m: map<string, string>, key: string): Option<string>
  {
    if key in m then Some(m[key]) else None
  }

  lemma {:induction false} FirstWinsGet(m: map<string, string>, ds: seq<Item>, key: string)
    ensures Get(FirstWins(m, ds), key) == if key in m then Some(m[key]) else FirstOf(ds, key)
    decreases |ds|
  {
    if ds != [] {
      FirstWinsGet(if ds[0].key in m then m else m[ds[0].key := ds[0].value], ds[1..], key);
    }
  }

  lemma {:induction false} SetAllGet(m: map<string, string>, sets: seq<Item>, key: string)
    ensures Get(SetAll(m, sets), key) == if LastOf(sets, key).Some? then LastOf(sets, key) else Get(m, key)
  {
    if sets != [] {
      SetAllGet(m, sets[..|sets| - 1], key);
    }
  }

  /**
   Precedence: after any settings and then any file, a directive has the value set last, if
   it was set at all, else that of the first valid line for it, else none.
   */
  lemma Precedence(sets: seq<Item>, file: string, key: string)
    ensures Get(FirstWins(SetAll(map[], sets), Directives(Lines(file))), key) ==
              if LastOf(sets, key).Some? then LastOf(sets, key) else FirstOf(Directives(Lines(file)), key)
  {
    SetAllGet(map[], sets, key);
    FirstWinsGet(SetAll(map[], sets), Directives(Lines(file)), key);
  }

  /** Setting a directive once more makes that its value, and no other directive's. */
  lemma LastSetWins(sets: seq<Item>, d: Item, key: string)
    ensures LastOf(sets + [d], key) == if key == d.key then Some(d.value) else LastOf(sets, key)
  {
    assert (sets + [d])[..|sets|] == sets;
  }

  /** Only names of the list ever come from a file. */
  lemma {:induction false} DirectivesAreValid(lines: seq<string>)
    ensures forall d :: d in Directives(lines) ==> d.key in DIRECTIVES
  {
    hide ParseLine;
    if lines != [] {
      DirectivesAreValid(lines[1..]);
    }
  }

  // ----- continuation lines -----

  function Concat(pieces: seq<string>): string
  {
    if pieces == [] then "" else pieces[0] + Concat(pieces[1..])
  }

  /** The pieces of one logical line, each but the last followed by a backslash and a newline. */
  function SplitText(pieces: seq<string>): string
    requires pieces != []
  {
    if |pieces| == 1 then pieces[0] + "\n" else pieces[0] + "\\\n" + SplitText(pieces[1..])
  }

  /**
   Every piece with its newline, and its backslash unless it is the last, fits the room that
   `fgets` is given: all of the buffer for the first piece, what is left behind the text so
   far for the others.
   */
  predicate FitsBuffer(room: int, before: nat, pieces: seq<string>)
    requires pieces != []
    decreases |pieces|
  {
    if |pieces| == 1 then |pieces[0]| + 1 <= room
    else
      && |pieces[0]| + 2 <= room
      && FitsBuffer(MAX_CONFIG_LINE - 2 - before - |pieces[0]|, before + |pieces[0]|, pieces[1..])
  }

  predicate OneLine(s: string)
  {
    forall i :: 0 <= i < |s| ==> s[i] != '\n'
  }

  lemma {:induction false} ChunkIsLine(s: string, rest: string, limit: nat)
    requires OneLine(s) && |s| + 1 <= limit
    ensures ChunkLength(s + "\n" + rest, limit) == |s| + 1
  {
    if s == "" {
      assert (s + "\n" + rest)[0] == '\n';
    } else {
      assert (s + "\n" + rest)[1..] == s[1..] + "\n" + rest;
      ChunkIsLine(s[1..], rest, limit - 1);
    }
  }

  lemma StripLine(s: string)
    requires OneLine(s)
    ensures Strip(s + "\n") == if s == "" then "\n" else s
  {
    if s != "" {
      assert (s + "\n")[..|s|] == s;
      assert Strip(s) == s;
    }
  }

  lemma OneLineConcat(a: string, b: string)
    requires OneLine(a) && OneLine(b)
    ensures OneLine(a + b)
  {
  }

  lemma {:induction false} OneLinePieces(pieces: seq<string>)
    requires forall p :: p in pieces ==> OneLine(p)
    ensures OneLine(Concat(pieces))
  {
    if pieces != [] {
      OneLinePieces(pieces[1..]);
      assert pieces[0] in pieces;
    }
  }

  /** One turn of the continuation loop. */
  lemma ContinueOnce(line: string, file: string)
    requires 0 < |line| < MAX_CONFIG_LINE - 1 && Continues(line) && file != ""
    ensures var n := ChunkLength(file, MAX_CONFIG_LINE - |line| - 1);
            var next := Strip(line[..|line| - 1] + file[..n]);
            0 < |next| < MAX_CONFIG_LINE && Continue(line, file) == Continue(next, file[n..])
  {
    hide ChunkLength, Strip;
  }

  /** A continued line picks up the next chunk behind what it had. */
  lemma ContinueStep(before: string, s: string, rest: string)
    requires OneLine(s) && |before| + |s| + 1 <= 2046
    ensures var line := Strip(before + s + "\n");
            && 0 < |line| < MAX_CONFIG_LINE
            && Continue(before + "\\", s + "\n" + rest) == Continue(line, rest)
  {
    hide Continue, Strip, ChunkLength, OneLine;
    var line, file := before + "\\", s + "\n" + rest;
    ChunkIsLine(s, rest, MAX_CONFIG_LINE - |line| - 1);
    ContinueOnce(line, file);
    assert line[..|line| - 1] == before;
    assert file[..|s| + 1] == s + "\n" && file[|s| + 1..] == rest;
    assert before + s + "\n" == before + (s + "\n");
  }

  /** The first piece of a split line, and what follows it. */
  lemma FirstPiece(pieces: seq<string>, rest: string)
    requires pieces != []
    ensures |pieces| == 1 ==> Concat(pieces) == pieces[0] && SplitText(pieces) + rest == pieces[0] + "\n" + rest
    ensures Concat(pieces) == pieces[0] + Concat(pieces[1..])
    ensures |pieces| > 1 ==>
              SplitText(pieces) + rest == (pieces[0] + "\\") + "\n" + (SplitText(pieces[1..]) + rest)
  {
    if |pieces| == 1 {
      assert pieces[1..] == [];
    } else {
      var s, tail := pieces[0], SplitText(pieces[1..]);
      assert s + "\\\n" == (s + "\\") + "\n";
      Reassociate(s + "\\\n", tail, rest);
    }
  }

  /** A piece that is itself continued. */
  lemma ContinuePiece(before: string, s: string, after: string)
    requires OneLine(before) && OneLine(s) && |before| + |s| + 2 <= MAX_CONFIG_LINE - 2
    ensures Continue(before + "\\", (s + "\\") + "\n" + after) == Continue(before + s + "\\", after)
  {
    hide Continue, Strip;
    ContinueStep(before, s + "\\", after);
    assert before + (s + "\\") + "\n" == (before + s + "\\") + "\n";
    StripLine(before + s + "\\");
  }

  lemma ContinueEnds(line: string, file: string)
    requires 0 < |line| < MAX_CONFIG_LINE && !Continues(line)
    ensures Continue(line, file) == Read(line, file)
  {
  }

  lemma {:induction false} ContinueJoins(before: string, pieces: seq<string>, rest: string)
    requires pieces != [] && OneLine(before) && forall p :: p in pieces ==> OneLine(p)
    requires FitsBuffer(MAX_CONFIG_LINE - 2 - |before|, |before|, pieces) && !Continues(before + Concat(pieces))
    ensures Continue(before + "\\", SplitText(pieces) + rest) == Read(Strip(before + Concat(pieces) + "\n"), rest)
    decreases |pieces|
  {
    hide Continue, Strip, Concat, SplitText;
    var s := pieces[0];
    assert s in pieces;
    OneLineConcat(before, s);
    FirstPiece(pieces, rest);
    if |pieces| == 1 {
      ContinueStep(before, s, rest);
      StripLine(before + s);
      assert !Continues(if before + s == "" then "\n" else before + s);
      ContinueEnds(Strip(before + s + "\n"), rest);
    } else {
      ContinuePiece(before, s, SplitText(pieces[1..]) + rest);
      Reassociate(before, s, Concat(pieces[1..]));
      forall p | p in pieces[1..] ensures OneLine(p) {
        assert p in pieces;
      }
      ContinueJoins(before + s, pieces[1..], rest);
    }
  }

  /** Empty, or ending in a newline. */
  predicate WholeLines(a: string)
  {
    a == "" || a[|a| - 1] == '\n'
  }

  lemma {:induction false} ChunkWithin(a: string, x: string, limit: nat)
    requires a != "" && WholeLines(a)
    ensures ChunkLength(a + x, limit) == ChunkLength(a, limit)
  {
    if limit > 0 && a[0] != '\n' {
      assert (a + x)[1..] == a[1..] + x;
      ChunkWithin(a[1..], x, limit - 1);
    }
  }

  /** Text behind whole lines is not looked at, unless their last one asks to be continued. */
  lemma {:induction false} ContinueWithin(line: string, a: string, x: string)
    requires 0 < |line| < MAX_CONFIG_LINE && WholeLines(a) && !Continues(Continue(line, a).line)
    ensures Continue(line, a + x) == Read(Continue(line, a).line, Continue(line, a).rest + x)
    ensures WholeLines(Continue(line, a).rest)
    decreases |a|, |line|
  {
    hide Strip, ChunkLength;
    if Continues(line) {
      var room := MAX_CONFIG_LINE - |line|;
      if room == 1 {
        assert a[..0] == "" == (a + x)[..0] && a[0..] == a && (a + x)[0..] == a + x;
        NoRoom(a);
        NoRoom(a + x);
        ContinueWithin(Strip(line[..|line| - 1] + ""), a, x);
      } else {
        var n := ChunkLength(a, room - 1);
        ChunkWithin(a, x, room - 1);
        assert (a + x)[..n] == a[..n] && (a + x)[n..] == a[n..] + x;
        ContinueWithin(Strip(line[..|line| - 1] + a[..n]), a[n..], x);
      }
    }
  }

  lemma NoRoom(a: string)
    ensures ChunkLength(a, 0) == 0
  {
  }

  lemma ReadLineWithin(a: string, x: string)
    requires a != "" && WholeLines(a) && !Continues(ReadLine(a).line)
    ensures ReadLine(a + x) == Read(ReadLine(a).line, ReadLine(a).rest + x)
    ensures WholeLines(ReadLine(a).rest)
  {
    hide Strip, ChunkLength, Continue;
    var n := ChunkLength(a, MAX_CONFIG_LINE - 1);
    ChunkWithin(a, x, MAX_CONFIG_LINE - 1);
    assert (a + x)[..n] == a[..n] && (a + x)[n..] == a[n..] + x;
    ContinueWithin(Strip(a[..n]), a[n..], x);
  }

  /** What is read from whole lines does not depend on what follows them. */
  lemma {:induction false} LinesConcat(a: string, x: string)
    requires WholeLines(a) && forall l :: l in Lines(a) ==> !Continues(l)
    ensures Lines(a + x) == Lines(a) + Lines(x)
    decreases |a|
  {
    hide ReadLine, WholeLines, Continues;
    if a == "" {
      assert a + x == x;
    } else {
      var r := ReadLine(a);
      assert Lines(a) == [r.line] + Lines(r.rest);
      assert r.line in Lines(a) && forall l :: l in Lines(r.rest) ==> l in Lines(a);
      ReadLineWithin(a, x);
      LinesConcat(r.rest, x);
    }
  }

  /**
   Splitting a line anywhere in a file with backslash continuations does not change what is
   read, provided that the pieces fit the buffer, that the joined line does not itself end in
   a backslash and that no line before it asks to be continued by it.
   */
  lemma SplitLineReadsTheSame(before: string, pieces: seq<string>, rest: string)
    requires WholeLines(before) && forall l :: l in Lines(before) ==> !Continues(l)
    requires pieces != [] && forall p :: p in pieces ==> OneLine(p)
    requires FitsBuffer(MAX_CONFIG_LINE - 1, 0, pieces) && !Continues(Concat(pieces))
    ensures Lines(before + (SplitText(pieces) + rest)) == Lines(before + (Concat(pieces) + "\n" + rest))
  {
    hide WholeLines, Continues, Lines, ReadLine, Concat, SplitText;
    LinesConcat(before, SplitText(pieces) + rest);
    LinesConcat(before, Concat(pieces) + "\n" + rest);
    SplitFirstLine(pieces, rest);
  }

  lemma SplitFirstLine(pieces: seq<string>, rest: string)
    requires pieces != [] && forall p :: p in pieces ==> OneLine(p)
    requires FitsBuffer(MAX_CONFIG_LINE - 1, 0, pieces) && !Continues(Concat(pieces))
    ensures Lines(SplitText(pieces) + rest) == Lines(Concat(pieces) + "\n" + rest)
  {
    hide Continue, Concat, Strip, ChunkLength;
    FittingLength(MAX_CONFIG_LINE - 1, 0, pieces);
    JoinedLineReads(pieces, rest);
    SplitLineReads(pieces, rest);
  }

  lemma {:induction false} FittingLength(room: int, before: nat, pieces: seq<string>)
    requires pieces != [] && FitsBuffer(room, before, pieces) && room + before <= MAX_CONFIG_LINE - 1
    ensures before + |Concat(pieces)| + 1 <= MAX_CONFIG_LINE - 1
    decreases |pieces|
  {
    if |pieces| == 1 {
      assert pieces[1..] == [];
    } else {
      FittingLength(MAX_CONFIG_LINE - 2 - before - |pieces[0]|, before + |pieces[0]|, pieces[1..]);
    }
  }

  lemma JoinedLineReads(pieces: seq<string>, rest: string)
    requires pieces != [] && forall p :: p in pieces ==> OneLine(p)
    requires |Concat(pieces)| + 1 <= MAX_CONFIG_LINE - 1 && !Continues(Concat(pieces))
    ensures ReadLine(Concat(pieces) + "\n" + rest) == Read(Strip(Concat(pieces) + "\n"), rest)
  {
    var s := Concat(pieces);
    OneLinePieces(pieces);
    ChunkIsLine(s, rest, MAX_CONFIG_LINE - 1);
    var file := s + "\n" + rest;
    assert file[..|s| + 1] == s + "\n" && file[|s| + 1..] == rest;
    StripLine(s);
  }

  lemma SplitLineReads(pieces: seq<string>, rest: string)
    requires pieces != [] && forall p :: p in pieces ==> OneLine(p)
    requires FitsBuffer(MAX_CONFIG_LINE - 1, 0, pieces) && !Continues(Concat(pieces))
    ensures ReadLine(SplitText(pieces) + rest) == Read(Strip(Concat(pieces) + "\n"), rest)
  {
    if |pieces| == 1 {
      FittingLength(MAX_CONFIG_LINE - 1, 0, pieces);
      JoinedLineReads(pieces, rest);
      assert pieces[1..] == [] && Concat(pieces) == pieces[0];
    } else {
      var s := pieces[0] + "\\";
      assert pieces[0] in pieces;
      var after := SplitText(pieces[1..]) + rest;
      var file := s + "\n" + after;
      assert SplitText(pieces) + rest == file;
      ChunkIsLine(s, after, MAX_CONFIG_LINE - 1);
      assert file[..|s| + 1] == s + "\n" && file[|s| + 1..] == after;
      StripLine(s);
      forall p | p in pieces[1..] ensures OneLine(p) {
        assert p in pieces;
      }
      ContinueJoins(pieces[0], pieces[1..], rest);
      assert pieces[0] + Concat(pieces[1..]) == Concat(pieces);
    }
  }

  // ----- pieces that do not fit -----

  lemma {:induction false} FullChunk(s: string, rest: string)
    requires OneLine(s)
    ensures ChunkLength(s + rest, |s|) == |s|
  {
    if s != "" {
      assert (s + rest)[1..] == s[1..] + rest;
      FullChunk(s[1..], rest);
    }
  }

  function Newlines(s: string): nat
  {
    if s == "" then 0 else Newlines(s[1..]) + if s[0] == '\n' then 1 else 0
  }

  lemma {:induction false} NewlinesConcat(a: string, b: string)
    ensures Newlines(a + b) == Newlines(a) + Newlines(b)
  {
    if a == "" {
      assert a + b == b;
    } else {
      assert (a + b)[1..] == a[1..] + b;
      NewlinesConcat(a[1..], b);
    }
  }

  lemma {:induction false} NoNewlines(s: string)
    requires OneLine(s)
    ensures Newlines(s) == 0
  {
    if s != "" {
      NoNewlines(s[1..]);
    }
  }

  /** What one `fgets` takes has at most one newline, at its end. */
  lemma {:induction false} ChunkNewlines(file: string, limit: nat)
    ensures var n := ChunkLength(file, limit);
            && Newlines(file) == Newlines(file[..n]) + Newlines(file[n..])
            && Newlines(file[..n]) <= 1 && (Newlines(file[..n]) == 1 ==> n > 0 && file[n - 1] == '\n')
  {
    var n := ChunkLength(file, limit);
    assert file == file[..n] + file[n..];
    NewlinesConcat(file[..n], file[n..]);
    if n > 0 {
      if file[0] == '\n' {
        assert file[..n] == [file[0]] && file[..n][1..] == "";
      } else {
        assert file[..n][1..] == file[1..][..n - 1];
        ChunkNewlines(file[1..], limit - 1);
      }
    }
  }

  lemma StripShortens(line: string)
    ensures |line| > 1 && line[|line| - 1] == '\n' ==> |Strip(line)| < |line|
  {
  }

  /** A turn that takes a newline costs a line two characters, the backslash and the newline; any other turn one. */
  lemma TurnLength(line: string, chunk: string)
    requires line != "" && Newlines(chunk) <= 1
    requires Newlines(chunk) == 1 ==> chunk != "" && chunk[|chunk| - 1] == '\n'
    ensures var next := Strip(line[..|line| - 1] + chunk);
            |next| + 2 * Newlines(chunk) <= |line| + |chunk| + if next == "\n" then 1 else 0
    ensures Newlines(chunk) == 0 ==> |Strip(line[..|line| - 1] + chunk)| < |line| + |chunk|
  {
    hide Strip, Newlines;
    StripShortens(line[..|line| - 1] + chunk);
    if |line| == 1 && |chunk| == 1 {
      assert line[..|line| - 1] + chunk == chunk;
      StripOne(chunk);
    }
  }

  lemma StripOne(s: string)
    requires |s| == 1
    ensures Strip(s) == s
  {
  }

  /** The count for a whole logical line: characters gained against characters and newlines read. */
  predicate Gained(r: Read, line: string, file: string, lost: int)
  {
    |r.line| + 2 * (Newlines(file) - Newlines(r.rest)) + lost <=
      |line| + |file| - |r.rest| + if r.line == "\n" then 1 else 0
  }

  /** No turn gains more than it reads. */
  lemma {:induction false} ContinueLength(line: string, file: string)
    requires 0 < |line| < MAX_CONFIG_LINE
    ensures Gained(Continue(line, file), line, file, 0)
    decreases |file|, |line|
  {
    hide Strip, ChunkLength, Newlines;
    if !Continues(line) {
    } else {
      var room := MAX_CONFIG_LINE - |line|;
      if room > 1 && file == "" {
      } else {
        var n := ChunkLength(file, room - 1);
        var next := Strip(line[..|line| - 1] + file[..n]);
        ChunkNewlines(file, room - 1);
        TurnLength(line, file[..n]);
        ContinueLength(next, file[n..]);
        if next == "\n" {
          ContinueEnds(next, file[n..]);
        }
      }
    }
  }

  /** A turn without a newline loses a character for good. */
  lemma LostTurn(line: string, file: string)
    requires 0 < |line| < MAX_CONFIG_LINE - 1 && Continues(line) && file != ""
    requires OneLine(file[..ChunkLength(file, MAX_CONFIG_LINE - |line| - 1)])
    ensures Gained(Continue(line, file), line, file, 1)
  {
    hide Strip, ChunkLength, Newlines, Continue, OneLine;
    var n := ChunkLength(file, MAX_CONFIG_LINE - |line| - 1);
    ContinueOnce(line, file);
    ChunkNewlines(file, MAX_CONFIG_LINE - |line| - 1);
    NoNewlines(file[..n]);
    TurnLength(line, file[..n]);
    ContinueLength(Strip(line[..|line| - 1] + file[..n]), file[n..]);
  }

  /** How long a split line is, and how many newlines it has. */
  lemma {:induction false} SplitSize(pieces: seq<string>)
    requires pieces != [] && forall p :: p in pieces ==> OneLine(p)
    ensures |SplitText(pieces)| == |Concat(pieces)| + 2 * |pieces| - 1
    ensures Newlines(SplitText(pieces)) == |pieces|
  {
    hide Newlines;
    var s := pieces[0];
    assert s in pieces;
    NoNewlines(s);
    OneNewline();
    if |pieces| == 1 {
      assert pieces[1..] == [];
      NewlinesConcat(s, "\n");
    } else {
      SplitSize(pieces[1..]);
      NewlinesConcat(s, "\\\n");
      NewlinesConcat(s + "\\\n", SplitText(pieces[1..]));
    }
  }

  lemma OneNewline()
    ensures Newlines("\n") == 1 && Newlines("\\\n") == 1
  {
    assert "\\\n"[1..] == "\n" && "\n"[1..] == "";
  }

  lemma CutText(t: string, after: string, room: nat)
    requires OneLine(t) && room <= |t|
    ensures t + after == t[..room] + (t[room..] + after)
    ensures (t + after)[..room] == t[..room] && OneLine(t[..room])
  {
    hide OneLine;
    assert t == t[..room] + t[room..];
    Reassociate(t[..room], t[room..], after);
    OneLinePart(t, room);
  }

  lemma OneLinePart(t: string, room: nat)
    requires OneLine(t) && room <= |t|
    ensures OneLine(t[..room])
  {
  }

  /** The first `fgets` of a continuation gets a text that is cut off before its newline. */
  lemma CutTurn(before: string, t: string, after: string)
    requires |before| <= MAX_CONFIG_LINE - 3 && OneLine(t) && |t| >= MAX_CONFIG_LINE - 2 - |before|
    ensures Gained(Continue(before + "\\", t + after), before + "\\", t + after, 1)
  {
    hide Continue, Gained, ChunkLength;
    var room := MAX_CONFIG_LINE - 2 - |before|;
    CutText(t, after, room);
    FullChunk(t[..room], t[room..] + after);
    LostTurn(before + "\\", t + after);
  }

  /** A gain over the rest is a gain over one more piece in front of it. */
  lemma GainBefore(r: Read, before: string, s: string, after: string)
    requires OneLine(s) && Gained(r, before + s + "\\", after, 1)
    ensures Gained(r, before + "\\", s + "\\\n" + after, 1)
  {
    hide Newlines;
    NoNewlines(s);
    OneNewline();
    NewlinesConcat(s, "\\\n");
    NewlinesConcat(s + "\\\n", after);
  }

  /** If some piece does not fit, the logical line is a character short. */
  lemma {:induction false} LostPieces(before: string, pieces: seq<string>, rest: string)
    requires pieces != [] && OneLine(before) && forall p :: p in pieces ==> OneLine(p)
    requires |before| <= MAX_CONFIG_LINE - 3 && |before| + |Concat(pieces)| + 1 <= MAX_CONFIG_LINE - 1
    requires !FitsBuffer(MAX_CONFIG_LINE - 2 - |before|, |before|, pieces)
    ensures Gained(Continue(before + "\\", SplitText(pieces) + rest), before + "\\", SplitText(pieces) + rest, 1)
    decreases |pieces|
  {
    hide Continue, Strip, Gained, Concat, SplitText;
    var s, room := pieces[0], MAX_CONFIG_LINE - 2 - |before|;
    assert s in pieces;
    FirstPiece(pieces, rest);
    if |pieces| == 1 {
      Reassociate(s, "\n", rest);
      CutTurn(before, s, "\n" + rest);
    } else {
      var after := SplitText(pieces[1..]) + rest;
      assert s + "\\\n" == (s + "\\") + "\n";
      if |s| + 2 > room {
        Reassociate(s + "\\", "\n", after);
        CutTurn(before, s + "\\", "\n" + after);
      } else {
        OneLineConcat(before, s);
        ContinuePiece(before, s, after);
        LostPieces(before + s, pieces[1..], rest);
        GainBefore(Continue(before + s + "\\", after), before, s, after);
      }
    }
  }

  /** Reading the split line as the joined one would gain more than is possible. */
  lemma NoSuchGain(r: Read, before: string, pieces: seq<string>, rest: string)
    requires pieces != [] && OneLine(before) && forall p :: p in pieces ==> OneLine(p)
    requires Gained(r, before + "\\", SplitText(pieces) + rest, 1)
    ensures r != Read(Strip(before + Concat(pieces) + "\n"), rest)
  {
    hide Newlines, Strip;
    SplitSize(pieces);
    NewlinesConcat(SplitText(pieces), rest);
    OneLinePieces(pieces);
    OneLineConcat(before, Concat(pieces));
    var joined := before + Concat(pieces);
    StripLine(joined);
    assert joined != "" ==> joined[0] != '\n';
    assert |SplitText(pieces) + rest| == |SplitText(pieces)| + |rest|;
  }

  /** The first piece fills the buffer, so that its newline is left over. */
  lemma FullFirstPiece(s: string, after: string)
    requires OneLine(s) && |s| == MAX_CONFIG_LINE - 2
    ensures Gained(ReadLine(s + "\\\n" + after), s + "\\", after, 1)
  {
    hide Strip, ChunkLength, Continue, Newlines;
    var t := s + "\\";
    assert s + "\\\n" + after == t + ("\n" + after);
    FullChunk(t, "\n" + after);
    assert (t + ("\n" + after))[..|t|] == t && (t + ("\n" + after))[|t|..] == "\n" + after;
    StripNothing(t);
    ContinueLength(t, "\n" + after);
    OneNewline();
    NewlinesConcat("\n", after);
  }

  /** The first piece fits and the rest of the text continues it. */
  lemma ReadFirstPiece(s: string, after: string)
    requires OneLine(s) && |s| <= MAX_CONFIG_LINE - 3
    ensures ReadLine(s + "\\\n" + after) == Continue(s + "\\", after)
  {
    hide Strip, ChunkLength, Continue;
    var t, file := s + "\\", s + "\\\n" + after;
    assert file == t + "\n" + after;
    ChunkIsLine(t, after, MAX_CONFIG_LINE - 1);
    assert file[..|t| + 1] == t + "\n" && file[|t| + 1..] == after;
    StripLine(t);
  }

  /** A split line with a piece that does not fit is not read as the joined line. */
  lemma SplitTooLate(pieces: seq<string>, rest: string)
    requires pieces != [] && forall p :: p in pieces ==> OneLine(p)
    requires |Concat(pieces)| + 1 <= MAX_CONFIG_LINE - 1 && !FitsBuffer(MAX_CONFIG_LINE - 1, 0, pieces)
    ensures ReadLine(SplitText(pieces) + rest) != Read(Strip(Concat(pieces) + "\n"), rest)
  {
    hide Strip, Continue, ReadLine, Gained, Concat, SplitText;
    var s, tail := pieces[0], pieces[1..];
    assert s in pieces;
    FirstPiece(pieces, rest);
    var after := SplitText(tail) + rest;
    assert s + "\\\n" == (s + "\\") + "\n";
    if |s| <= MAX_CONFIG_LINE - 3 {
      ReadFirstPiece(s, after);
      LostPieces(s, tail, rest);
    } else {
      FullFirstPiece(s, after);
    }
    NoSuchGain(ReadLine(s + "\\\n" + after), s, tail, rest);
  }

  /**
   A line that fits the buffer and does not end in a backslash may be split with backslash
   continuations, and is then read as before, exactly if every piece fits the room it is given.
   */
  lemma SplitReadsTheSameIff(pieces: seq<string>, rest: string)
    requires pieces != [] && forall p :: p in pieces ==> OneLine(p)
    requires |Concat(pieces)| + 1 <= MAX_CONFIG_LINE - 1 && !Continues(Concat(pieces))
    ensures ReadLine(SplitText(pieces) + rest) == ReadLine(Concat(pieces) + "\n" + rest) <==>
              FitsBuffer(MAX_CONFIG_LINE - 1, 0, pieces)
  {
    hide Strip, ReadLine, Concat, SplitText, Continues;
    JoinedLineReads(pieces, rest);
    if FitsBuffer(MAX_CONFIG_LINE - 1, 0, pieces) {
      SplitLineReads(pieces, rest);
    } else {
      SplitTooLate(pieces, rest);
    }
  }

  /**
   The room for a continuation is one character less than for a line: behind a first piece of
   2045 characters the second one is cut one character earlier than in the joined line.
   */
  lemma LateSplitLosesText(a: string, b: string, rest: string)
    requires |a| == MAX_CONFIG_LINE - 3 && |b| > 1 && OneLine(a) && OneLine(b) && b[0] != '\\' && b[1] != '\\'
    ensures ReadLine(SplitText([a, b]) + rest).line == a + b[..1]
    ensures ReadLine(a + b + "\n" + rest).line == a + b[..2]
  {
    hide Continue, Strip, ChunkLength;
    LateSplit(a, b, rest);
    LateJoin(a, b, rest);
  }

  lemma LateSplit(a: string, b: string, rest: string)
    requires |a| == MAX_CONFIG_LINE - 3 && |b| > 1 && OneLine(a) && OneLine(b) && b[0] != '\\'
    ensures ReadLine(SplitText([a, b]) + rest).line == a + b[..1]
  {
    hide Continue, Strip, ChunkLength;
    var s, after := a + "\\", b + "\n" + rest;
    var file := s + "\n" + after;
    assert SplitText([a, b]) + rest == file by {
      assert [a, b][1..] == [b];
    }
    ChunkIsLine(s, after, MAX_CONFIG_LINE - 1);
    assert file[..|s| + 1] == s + "\n" && file[|s| + 1..] == after;
    StripLine(s);
    assert after == b[..1] + (b[1..] + "\n" + rest);
    FullChunk(b[..1], b[1..] + "\n" + rest);
    ContinueOnce(s, after);
    assert s[..|s| - 1] == a && after[..1] == b[..1];
    StripNothing(a + b[..1]);
    ContinueEnds(a + b[..1], after[1..]);
  }

  lemma LateJoin(a: string, b: string, rest: string)
    requires |a| == MAX_CONFIG_LINE - 3 && |b| > 1 && OneLine(a) && OneLine(b) && b[1] != '\\'
    ensures ReadLine(a + b + "\n" + rest).line == a + b[..2]
  {
    hide Continue, Strip, ChunkLength;
    var s, after := a + b[..2], b[2..] + "\n" + rest;
    assert a + b + "\n" + rest == s + after;
    FullChunk(s, after);
    assert (s + after)[..|s|] == s;
    StripNothing(s);
    ContinueEnds(s, (s + after)[|s|..]);
  }

  lemma StripNothing(s: string)
    requires OneLine(s)
    ensures Strip(s) == s
  {
  }

  // ----- the operations -----

  /** The loop that cuts newlines off the end of the line. */
  method StripNewlines(text: string) returns (line: string)
    ensures line == Strip(text)
  {
    line := text;
    while |line| > 1 && line[|line| - 1] == '\n'
      invariant Strip(line) == Strip(text)
      decreases |line|
    {
      line := line[..|line| - 1];
    }
  }

  /** One `fgets` and the loop that gets continuation lines. */
  method GetLine(file: string) returns (line: string, rest: string)
    requires file != ""
    ensures Read(line, rest) == ReadLine(file) && |rest| < |file|
  {
    hide Strip, ChunkLength;
    var n := ChunkLength(file, MAX_CONFIG_LINE - 1);
    line := StripNewlines(file[..n]);
    rest := file[n..];
    while Continues(line)
      invariant 0 < |line| < MAX_CONFIG_LINE && |rest| < |file|
      invariant Continue(line, rest) == ReadLine(file)
      decreases |rest|, |line|
    {
      var room := MAX_CONFIG_LINE - |line|;
      if room > 1 && rest == "" {
        break;
      }
      n := ChunkLength(rest, room - 1);
      line := StripNewlines(line[..|line| - 1] + rest[..n]);
      rest := rest[n..];
    }
  }

  /** `is_cfgdirective_valid`. */
  method IsCfgDirectiveValid(s: string) returns (valid: bool)
    ensures valid <==> s in DIRECTIVES
  {
    for t := 0 to |DIRECTIVES|
      invariant forall i :: 0 <= i < t ==> DIRECTIVES[i] != s
    {
      if StrCmp(s, DIRECTIVES[t]) == 0 {
        return true;
      }
    }
    return false;
  }

  lemma LineTurn(file: string)
    requires file != ""
    ensures Directives(Lines(file)) ==
              match ParseLine(ReadLine(file).line)
              case None => Directives(Lines(ReadLine(file).rest))
              case Some(d) =>
                if d.key in DIRECTIVES then [d] + Directives(Lines(ReadLine(file).rest))
                else Directives(Lines(ReadLine(file).rest))
  {
    hide ParseLine, ReadLine;
    var r := ReadLine(file);
    assert ([r.line] + Lines(r.rest))[1..] == Lines(r.rest);
  }

  lemma InsertTurn(m: map<string, string>, d: Item, ds: seq<Item>)
    ensures FirstWins(m, [d] + ds) == FirstWins(if d.key in m then m else m[d.key := d.value], ds)
  {
    assert ([d] + ds)[1..] == ds;
  }

  /** The global `config` tree and what is done to it. */
  class Config {
    const config: Tree

    ghost predicate Valid()
      reads config, config.nodes
    {
      config.Valid()
    }

    /** `config_init`. */
    constructor ()
      ensures Valid() && fresh(config) && config.contents == map[] && config.nodes == []
    {
      config := new Tree();
    }

    /** `config_get_string`: NULL when the directive is not there. */
    method ConfigGetString(directive: string) returns (value: Option<string>)
      requires Valid()
      ensures value == Get(config.contents, directive)
    {
      var s, p := config.Find(directive);
      return if s == null then None else Some(s.d);
    }

    /** `config_set_string`: the value given last wins. */
    method ConfigSetString(directive: string, s: string)
      requires Valid()
      modifies config, config.nodes
      ensures Valid() && config.contents == old(config.contents)[directive := s]
      ensures forall n :: n in config.nodes ==> n in old(config.nodes) || n == config || fresh(n)
    {
      var found, p := config.Find(directive);
      if found != null {
        config.Overwrite(found, p, s);
      } else {
        var existing := config.Insert(directive, s);
      }
    }

    /** `read_config_file`: the valid lines of the file are inserted in order, and what was there before stays. */
    method ReadConfigFile(file: Option<string>) returns (ret: bool)
      requires Valid()
      modifies config, config.nodes
      ensures Valid() && ret == file.Some?
      ensures config.contents ==
                if file.Some? then FirstWins(old(config.contents), Directives(Lines(file.value)))
                else old(config.contents)
      ensures forall n :: n in config.nodes ==> n in old(config.nodes) || n == config || fresh(n)
    {
      hide ParseLine, ReadLine, Lines, Directives;
      if file == None {
        return false;
      }
      var rest := file.value;
      while rest != ""
        invariant Valid()
        invariant FirstWins(config.contents, Directives(Lines(rest))) ==
                    FirstWins(old(config.contents), Directives(Lines(file.value)))
        invariant forall n :: n in config.nodes ==> n in old(config.nodes) || n == config || fresh(n)
        decreases |rest|
      {
        LineTurn(rest);
        var line;
        line, rest := GetLine(rest);
        var parsed := ParseLine(line);
        if parsed.Some? {
          var d := parsed.value;
          var valid := IsCfgDirectiveValid(d.key);
          if valid {
            InsertTurn(config.contents, d, Directives(Lines(rest)));
            assert forall i :: 0 <= i < |config.nodes| ==> config.nodes[i] in config.nodes;
            var existing := config.Insert(d.key, d.value);
          }
        }
      }
      NothingLeft();
      return true;
    }
  }

  lemma NothingLeft()
    ensures Directives(Lines("")) == []
  {
  }
}
