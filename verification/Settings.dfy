/** What the lines of a configuration file say: a setting that was written down is read back. */
module Settings {
  import opened Bytes
  import opened CfgFile
  import opened StringMap
  import opened Wrappers

  /** Only blanks and tabs. */
  predicate Blank(s: string)
  {
    forall c :: c in s ==> c in " \t"
  }

  predicate Without(s: string, chars: string)
  {
    forall c :: c in s ==> c !in chars
  }

  /** A word: it holds no blank and none of the characters that end a key. */
  predicate Word(s: string)
  {
    s != "" && Without(s, " \t:#\n")
  }

  /** A value as it can be stored: on one line, without a comment and without blanks at its ends. */
  predicate Value(s: string)
  {
    Without(s, "#\n") && (s != "" ==> s[0] !in " \t" && s[|s| - 1] !in " \t")
  }

  /** What may stand between the key and the first colon: nothing, or a blank and anything after it. */
  predicate Gap(s: string)
  {
    Without(s, ":#\n") && (s != "" ==> s[0] in " \t")
  }

  /** A comment to the end of the line, or nothing. */
  predicate Comment(s: string)
  {
    s != "" ==> s[0] in "#\n"
  }

  // ----- spans -----

  /** The leading part ends where the characters change. */
  lemma {:induction false} SpanIs(a: string, b: string, chars: string, inside: bool)
    requires forall c :: c in a ==> (c in chars <==> inside)
    requires b != "" ==> (b[0] in chars <==> !inside)
    ensures Span(a + b, chars, inside) == |a|
  {
    if a == "" {
      assert a + b == b;
    } else {
      assert (a + b)[1..] == a[1..] + b && a[0] in a;
      SpanIs(a[1..], b, chars, inside);
    }
  }

  lemma {:induction false} TrimIs(v: string, trail: string)
    requires v != "" && v[|v| - 1] !in " \t" && Blank(trail)
    ensures TrimRight(v + trail) == v
  {
    if trail == "" {
      assert v + trail == v;
    } else {
      var n := |trail| - 1;
      assert (v + trail)[..|v + trail| - 1] == v + trail[..n] && trail[n] in trail;
      assert (v + trail)[|v + trail| - 1] == trail[n];
      TrimIs(v, trail[..n]);
    }
  }

  // ----- one line -----

  /** A comment is not looked at. */
  lemma CommentIsCut(text: string, comment: string)
    requires Without(text, "#\n") && Comment(comment)
    ensures ParseLine(text + comment) == ParseLine(text) == ParseText(text)
  {
    hide ParseText;
    SpanIs(text, comment, "#\n", false);
    SpanIs(text, "", "#\n", false);
    assert (text + comment)[..|text|] == text && text + "" == text && text[..|text|] == text;
  }

  /** The key of a line is its first word, if a colon follows it. */
  lemma KeyIsFound(lead: string, key: string, gap: string, after: string)
    requires Blank(lead) && Word(key) && Gap(gap) && Without(after, "#\n")
    ensures var text := lead + key + gap + ":" + after;
            && Span(text, "#\n", false) == |text|
            && Span(text, ":", false) == |lead + key + gap|
            && Span(text, " \t", true) == |lead|
            && text[|lead|..][..Span(text[|lead|..], " \t:", false)] == key
  {
    var text, rest := lead + key + gap + ":" + after, gap + ":" + after;
    assert Without(text, "#\n");
    assert text + "" == text;
    SpanIs(text, "", "#\n", false);
    assert text == (lead + key + gap) + (":" + after);
    SpanIs(lead + key + gap, ":" + after, ":", false);
    assert text == lead + (key + rest) && key[0] in key;
    SpanIs(lead, key + rest, " \t", true);
    assert text[|lead|..] == key + rest;
    assert rest[0] == if gap == "" then ':' else gap[0];
    SpanIs(key, rest, " \t:", false);
  }

  lemma ValueIsFound(pad: string, v: string, trail: string)
    requires Blank(pad) && Value(v) && Blank(trail)
    ensures var value := pad + v + trail; TrimRight(value[Span(value, " \t", true)..]) == v
  {
    var value := pad + v + trail;
    if v == "" {
      assert value == (pad + trail) + "";
      SpanIs(pad + trail, "", " \t", true);
      assert value[|value|..] == "";
    } else {
      assert value == pad + (v + trail);
      SpanIs(pad, v + trail, " \t", true);
      assert value[|pad|..] == v + trail;
      TrimIs(v, trail);
    }
  }

  /**
   A setting that was written down is read back: blanks around key and value, further words
   before the colon and a comment do not matter.
   */
  lemma SettingIsRead(
    lead: string, key: string, gap: string, pad: string, v: string, trail: string, comment: string)
    requires Blank(lead) && Word(key) && Gap(gap) && Blank(pad) && Value(v) && Blank(trail) && Comment(comment)
    ensures ParseLine(lead + key + gap + ":" + (pad + v + trail) + comment) == Some(Item(key, v))
  {
    hide Span, TrimRight, ParseLine;
    var after := pad + v + trail;
    var text := lead + key + gap + ":" + after;
    assert Without(after, "#\n") && Without(text, "#\n");
    CommentIsCut(text, comment);
    KeyIsFound(lead, key, gap, after);
    ValueIsFound(pad, v, trail);
    assert text[..|text|] == text && text[|lead + key + gap| + 1..] == after;
  }

  /** Where the first word of a line would start. */
  function Start(text: string): (n: nat)
    ensures n <= |text| && Blank(text[..n]) && (n < |text| ==> text[n] !in " \t")
    ensures forall i :: 0 <= i < n ==> text[i] in " \t"
  {
    Span(text, " \t", true)
  }

  lemma NothingSet(text: string)
    requires Without(text, "#\n")
    ensures ParseText(text) == None <==> ':' !in text || Start(text) == |text| || text[Start(text)] == ':'
  {
    var colon, start := Span(text, ":", false), Start(text);
    assert ':' in text <==> colon < |text|;
    var key := text[start..][..Span(text[start..], " \t:", false)];
    assert key == "" <==> start == |text| || text[start] in " \t:";
  }

  /** A line sets nothing exactly if, before its comment, it has no colon or only blanks in front of the first one. */
  lemma SetsNothingIff(text: string, comment: string)
    requires Without(text, "#\n") && Comment(comment)
    ensures ParseLine(text + comment) == None <==>
              ':' !in text || exists n :: 0 <= n < |text| && text[n] == ':' && Blank(text[..n])
  {
    hide ParseLine, ParseText, Span;
    CommentIsCut(text, comment);
    NothingSet(text);
    var start := Start(text);
    forall n | 0 <= n < |text| && text[n] == ':' && Blank(text[..n]) ensures start == n {
      assert forall i :: 0 <= i < n ==> text[..n][i] == text[i];
    }
  }

  // ----- a line in a file -----

  lemma {:induction false} DirectivesConcat(a: seq<string>, b: seq<string>)
    ensures Directives(a + b) == Directives(a) + Directives(b)
  {
    hide ParseLine;
    if a == [] {
      assert a + b == b;
    } else {
      assert (a + b)[1..] == a[1..] + b;
      DirectivesConcat(a[1..], b);
    }
  }

  lemma {:induction false} FirstOfConcat(a: seq<Item>, b: seq<Item>, key: string)
    ensures FirstOf(a + b, key) == if FirstOf(a, key).Some? then FirstOf(a, key) else FirstOf(b, key)
  {
    if a == [] {
      assert a + b == b;
    } else {
      assert (a + b)[1..] == a[1..] + b;
      FirstOfConcat(a[1..], b, key);
    }
  }

  /** An ordinary line is read as it stands, without its newline. */
  lemma PlainLine(line: string, rest: string)
    requires line != "" && OneLine(line) && |line| <= 2046 && !Continues(line)
    ensures Lines(line + "\n" + rest) == [line] + Lines(rest)
  {
    hide Continue, Strip, ChunkLength, ReadLine;
    assert Concat([line]) == line by {
      assert [line][1..] == [];
    }
    JoinedLineReads([line], rest);
    StripLine(line);
  }

  /** A longer line is cut after 2047 characters, and what follows is read as another line. */
  lemma LongLineIsCut(line: string, rest: string)
    requires OneLine(line) && |line| == 2047 && !Continues(line)
    ensures Lines(line + rest) == [line] + Lines(rest)
  {
    hide Continue, Strip, ChunkLength;
    FullChunk(line, rest);
    assert (line + rest)[..|line|] == line && (line + rest)[|line|..] == rest;
    StripNothing(line);
    ContinueEnds(line, rest);
  }

  lemma {:induction false} LastChunk(s: string, limit: nat)
    requires OneLine(s) && |s| <= limit
    ensures ChunkLength(s, limit) == |s|
  {
    if s != "" {
      LastChunk(s[1..], limit - 1);
    }
  }

  /** The last line may lack its newline. */
  lemma LastLine(line: string)
    requires line != "" && OneLine(line) && |line| <= 2047 && !Continues(line)
    ensures Lines(line) == [line]
  {
    hide Continue, Strip, ChunkLength;
    LastChunk(line, MAX_CONFIG_LINE - 1);
    assert line[..|line|] == line && line[|line|..] == "";
    StripNothing(line);
    ContinueEnds(line, "");
    assert Lines("") == [];
  }

  /**
   A file that sets a directive: its value is the one written, unless the directive was set
   before the file was read or an earlier line of the file sets it.
   */
  lemma WrittenSettingWins(
    sets: seq<Item>, before: string, line: string, rest: string, key: string, v: string)
    requires WholeLines(before) && forall l :: l in Lines(before) ==> !Continues(l)
    requires line != "" && OneLine(line) && |line| <= 2046 && !Continues(line)
    requires ParseLine(line) == Some(Item(key, v)) && key in DIRECTIVES
    ensures var file := before + (line + "\n" + rest);
            Get(FirstWins(SetAll(map[], sets), Directives(Lines(file))), key) ==
              if LastOf(sets, key).Some? then LastOf(sets, key)
              else if FirstOf(Directives(Lines(before)), key).Some? then FirstOf(Directives(Lines(before)), key)
              else Some(v)
  {
    hide ParseLine, Lines, WholeLines, Continues, FirstWins, SetAll;
    var file := before + (line + "\n" + rest);
    LinesConcat(before, line + "\n" + rest);
    PlainLine(line, rest);
    DirectivesConcat(Lines(before), [line] + Lines(rest));
    DirectivesConcat([line], Lines(rest));
    OneDirective(line, key, v);
    FirstOfConcat(Directives(Lines(before)), Directives([line] + Lines(rest)), key);
    FirstOfConcat([Item(key, v)], Directives(Lines(rest)), key);
    Precedence(sets, file, key);
  }

  lemma OneDirective(line: string, key: string, v: string)
    requires ParseLine(line) == Some(Item(key, v)) && key in DIRECTIVES
    ensures Directives([line]) == [Item(key, v)] && FirstOf([Item(key, v)], key) == Some(v)
  {
    hide ParseLine;
    assert [line][1..] == [];
    assert Directives([]) == [];
  }

  /** For instance a net filter, with a comment behind it. */
  lemma NetFilterIsRead(
    sets: seq<Item>, before: string, rest: string, host: string, digits: string, note: string)
    requires WholeLines(before) && forall l :: l in Lines(before) ==> !Continues(l)
    requires Word(host) && Word(digits) && OneLine(note) && !Continues(note)
    requires |host| + |digits| + |note| <= 2030
    requires LastOf(sets, "net-filter") == None && FirstOf(Directives(Lines(before)), "net-filter") == None
    ensures var line := "net-filter: " + (host + "/" + digits) + "  #" + note;
            Get(FirstWins(SetAll(map[], sets), Directives(Lines(before + (line + "\n" + rest)))), "net-filter") ==
              Some(host + "/" + digits)
  {
    hide ParseLine, Lines, WholeLines, FirstWins, SetAll, Directives;
    var key, v := "net-filter", host + "/" + digits;
    var line := "net-filter: " + v + "  #" + note;
    assert v[0] == host[0] && v[0] in host && v[|v| - 1] == digits[|digits| - 1] && v[|v| - 1] in digits;
    assert Value(v);
    SettingIsRead("", key, "", " ", v, "  ", "#" + note);
    assert "" + key + "" + ":" + (" " + v + "  ") + ("#" + note) == line;
    LineEnds("net-filter: " + v + "  #", note);
    WordIsOneLine(host);
    WordIsOneLine(digits);
    assert DIRECTIVES[14] == key;
    WrittenSettingWins(sets, before, line, rest, key, v);
  }

  lemma WordIsOneLine(s: string)
    requires Word(s)
    ensures OneLine(s)
  {
    assert forall i :: 0 <= i < |s| ==> s[i] in s;
  }

  lemma LineEnds(text: string, note: string)
    requires text != "" && !Continues(text) && !Continues(note)
    ensures !Continues(text + note)
  {
    assert note == "" ==> text + note == text;
  }
}
