/** Normalising text and cutting it at paragraphs and sentences, without losing a word. */
module Segmentation {
  import opened Text

  predicate NoBlank(chunks: seq<string>) {
    forall i | 0 <= i < |chunks| :: !Blank(chunks[i])
  }

  /** First index at or after `i` that does not hold a space or tab. */
  function SkipBlanks(t: string, i: nat): (k: nat)
    requires i <= |t|
    ensures i <= k <= |t| && (forall j | i <= j < k :: t[j] == ' ' || t[j] == '\t')
    ensures k < |t| ==> t[k] != ' ' && t[k] != '\t'
    decreases |t| - i
  {
    if i < |t| && (t[i] == ' ' || t[i] == '\t') then SkipBlanks(t, i + 1) else i
  }

  /** First index at or after `i` that does not hold a line feed. */
  function SkipNewlines(t: string, i: nat): (k: nat)
    requires i <= |t|
    ensures i <= k <= |t| && (forall j | i <= j < k :: t[j] == '\n')
    ensures k < |t| ==> t[k] != '\n'
    decreases |t| - i
  {
    if i < |t| && t[i] == '\n' then SkipNewlines(t, i + 1) else i
  }

  /** Replaces each leftmost match of a line feed, blanks and more line feeds by a paragraph break. */
  function CollapseBlankLines(t: string): string
    decreases |t|
  {
    if t == "" then ""
    else if t[0] == '\n' then
      var k := SkipBlanks(t, 1);
      if k < |t| && t[k] == '\n' then
        "\n\n" + CollapseBlankLines(t[SkipNewlines(t, k)..])
      else "\n" + CollapseBlankLines(t[1..])
    else [t[0]] + CollapseBlankLines(t[1..])
  }

  /** Every line end becomes a line feed. */
  function UnixLines(text: string): string {
    Replace(Replace(text, "\r\n", "\n"), "\r", "\n")
  }

  /** `_normalize_newlines` */
  function NormalizeNewlines(text: string): string {
    Strip(CollapseBlankLines(UnixLines(text)))
  }

  /** A run of line feed, blanks and line feeds is white space. */
  lemma BlankRunIsSpace(t: string)
    requires t != "" && t[0] == '\n' && SkipBlanks(t, 1) < |t| && t[SkipBlanks(t, 1)] == '\n'
    ensures var e := SkipNewlines(t, SkipBlanks(t, 1));
            0 < e <= |t| && AllSpace(t[..e])
  {
    hide SkipBlanks, SkipNewlines;
  }

  lemma {:induction false} WordsOfCollapse(t: string)
    ensures SameShape(CollapseBlankLines(t), t)
    decreases |t|
  {
    if t == "" {
    } else if t[0] == '\n' && SkipBlanks(t, 1) < |t| && t[SkipBlanks(t, 1)] == '\n' {
      BlankRunIsSpace(t);
      var e := SkipNewlines(t, SkipBlanks(t, 1));
      assert CollapseBlankLines(t) == "\n\n" + CollapseBlankLines(t[e..]);
      WordsOfCollapse(t[e..]);
      hide Words, CollapseBlankLines, SkipBlanks, SkipNewlines;
      assert t == t[..e] + t[e..];
      WordsDropLeadingSpace(t[..e], t[e..]);
      WordsDropLeadingSpace("\n\n", CollapseBlankLines(t[e..]));
    } else {
      WordsOfCollapse(t[1..]);
      assert CollapseBlankLines(t) == [t[0]] + CollapseBlankLines(t[1..]);
      hide Words, CollapseBlankLines, SkipBlanks, SkipNewlines;
      assert t == [t[0]] + t[1..];
      ConsShape(t[0], CollapseBlankLines(t[1..]), t[1..]);
    }
  }

  lemma WordsOfNormalize(text: string)
    ensures Words(NormalizeNewlines(text)) == Words(text)
  {
    var a := Replace(text, "\r\n", "\n");
    var b := Replace(a, "\r", "\n");
    WordsOfReplace(text, "\r\n", "\n");
    WordsOfReplace(a, "\r", "\n");
    WordsOfCollapse(b);
    WordsOfStrip(CollapseBlankLines(b));
  }

  // ---------------------------------------------------------------- line ends

  /** The first character, with the line feed behind a carriage return, decides the first step. */
  lemma UnixCons(c: char, t: string)
    ensures c != '\r' ==> UnixLines([c] + t) == [c] + UnixLines(t)
    ensures c == '\r' && StartsWith(t, "\n") ==> UnixLines([c] + t) == "\n" + UnixLines(t[1..])
    ensures c == '\r' && !StartsWith(t, "\n") ==> UnixLines([c] + t) == "\n" + UnixLines(t)
  {
    var inner := Replace(t, "\r\n", "\n");
    FirstPass(c, t);
    if c == '\r' && StartsWith(t, "\n") {
      SecondPass('\n', Replace(t[1..], "\r\n", "\n"));
    } else {
      SecondPass(c, inner);
    }
  }

  lemma FirstPass(c: char, t: string)
    ensures Replace([c] + t, "\r\n", "\n")
         == if c == '\r' && StartsWith(t, "\n") then ['\n'] + Replace(t[1..], "\r\n", "\n")
            else [c] + Replace(t, "\r\n", "\n")
  {
    StartsWithReturn(c, t);
    hide StartsWith;
    var s := [c] + t;
    assert s[1..] == t;
    if c == '\r' && StartsWith(t, "\n") {
      assert s[2..] == t[1..];
    }
  }

  lemma StartsWithReturn(c: char, t: string)
    ensures StartsWith([c] + t, "\r\n") <==> c == '\r' && StartsWith(t, "\n")
    ensures StartsWith(t, "\n") ==> t != ""
  {
    if t != "" {
      assert ([c] + t)[..2] == [c, t[0]] && t[..1] == [t[0]];
    }
  }

  lemma SecondPass(c: char, t: string)
    ensures Replace([c] + t, "\r", "\n") == [if c == '\r' then '\n' else c] + Replace(t, "\r", "\n")
  {
    var s := [c] + t;
    assert s[1..] == t && s[..1] == [c];
  }

  /** A carriage return before a line feed, and one that stands alone, count as a line feed. */
  lemma {:induction false} LineEndsAlike(u: string, v: string)
    requires u == "" || u[|u| - 1] != '\r'
    ensures UnixLines(u + ("\r\n" + v)) == UnixLines(u + ("\n" + v))
    ensures v == "" || v[0] != '\n' ==> UnixLines(u + ("\r" + v)) == UnixLines(u + ("\n" + v))
    decreases |u|
  {
    hide UnixLines;
    if u == "" {
      assert "" + ("\r\n" + v) == ['\r'] + ("\n" + v) && ("\n" + v)[..1] == "\n" && ("\n" + v)[1..] == v;
      assert "" + ("\n" + v) == ['\n'] + v && "" + ("\r" + v) == ['\r'] + v;
      UnixCons('\r', "\n" + v);
      UnixCons('\n', v);
      UnixCons('\r', v);
    } else {
      LineEndsAlike(Behind(u), v);
      LineEndsStep(u, "\r\n" + v, "\n" + v);
      if v == "" || v[0] != '\n' {
        LineEndsStep(u, "\r" + v, "\n" + v);
      }
    }
  }

  /** What is left of a text once its first line end or other character is read. */
  function Behind(u: string): (rest: string)
    requires u != ""
    ensures |rest| < |u|
    ensures rest == "" || rest[|rest| - 1] == u[|u| - 1]
  {
    if u[0] == '\r' && StartsWith(u[1..], "\n") then u[2..] else u[1..]
  }

  lemma LineEndsStep(u: string, a: string, b: string)
    requires u != "" && u[|u| - 1] != '\r'
    requires UnixLines(Behind(u) + a) == UnixLines(Behind(u) + b)
    ensures UnixLines(u + a) == UnixLines(u + b)
  {
    hide UnixLines;
    UnixBehind(u, a);
    UnixBehind(u, b);
  }

  lemma UnixBehind(u: string, a: string)
    requires u != "" && u[|u| - 1] != '\r'
    ensures UnixLines(u + a) == [if u[0] == '\r' then '\n' else u[0]] + UnixLines(Behind(u) + a)
  {
    hide UnixLines;
    var t := u[1..];
    assert u + a == [u[0]] + (t + a);
    UnixCons(u[0], t + a);
    if u[0] == '\r' {
      StartsWithPrefix(t, a, "\n");
      assert (t + a)[1..] == t[1..] + a && t[1..] == u[2..];
    }
  }

  lemma {:induction false} UnixKeeps(text: string)
    requires '\r' !in text
    ensures UnixLines(text) == text
  {
    if text != "" {
      assert text == [text[0]] + text[1..];
      UnixKeeps(text[1..]);
      UnixCons(text[0], text[1..]);
    }
  }

  lemma UnixHasNoReturn(text: string)
    ensures '\r' !in UnixLines(text)
  {
    ReplacedIsGone(Replace(text, "\r\n", "\n"));
  }

  lemma {:induction false} ReplacedIsGone(t: string)
    ensures '\r' !in Replace(t, "\r", "\n")
  {
    if t != "" {
      ReplacedIsGone(t[1..]);
      assert t[..1] == [t[0]];
    }
  }

  // ---------------------------------------------------------------- blank lines

  predicate OnlyBlanks(t: string) {
    forall i | 0 <= i < |t| :: t[i] == ' ' || t[i] == '\t'
  }

  predicate OnlyFeeds(t: string) {
    forall i | 0 <= i < |t| :: t[i] == '\n'
  }

  lemma {:induction false} CollapseKeepsLine(line: string, t: string)
    requires '\n' !in line
    ensures CollapseBlankLines(line + t) == line + CollapseBlankLines(t)
  {
    if line == "" {
      assert line + t == t;
    } else {
      CollapseKeepsLine(line[1..], t);
      assert line + t == [line[0]] + (line[1..] + t) && line == [line[0]] + line[1..];
      assert line[0] in line;
    }
  }

  /** A line feed, blanks and all the line feeds behind them become one paragraph break. */
  lemma CollapseRun(blanks: string, feeds: string, rest: string)
    requires OnlyBlanks(blanks) && OnlyFeeds(feeds) && feeds != ""
    requires rest == "" || rest[0] != '\n'
    ensures CollapseBlankLines("\n" + blanks + feeds + rest) == "\n\n" + CollapseBlankLines(rest)
  {
    var t := "\n" + blanks + feeds + rest;
    var k, e := 1 + |blanks|, 1 + |blanks| + |feeds|;
    assert t[k] == feeds[0];
    SkipsBlanks(t, blanks);
    SkipsFeeds(t, k, feeds);
    assert t[e..] == rest;
  }

  lemma SkipsBlanks(t: string, blanks: string)
    requires 1 + |blanks| <= |t| && t[1..1 + |blanks|] == blanks && OnlyBlanks(blanks)
    requires 1 + |blanks| < |t| ==> t[1 + |blanks|] !in [' ', '\t']
    ensures SkipBlanks(t, 1) == 1 + |blanks|
  {
    hide SkipBlanks;
    assert forall j | 1 <= j < 1 + |blanks| :: t[j] == blanks[j - 1];
  }

  lemma SkipsFeeds(t: string, i: nat, feeds: string)
    requires i + |feeds| <= |t| && t[i..i + |feeds|] == feeds && OnlyFeeds(feeds)
    requires i + |feeds| < |t| ==> t[i + |feeds|] != '\n'
    ensures SkipNewlines(t, i) == i + |feeds|
  {
    hide SkipNewlines;
    assert forall j | i <= j < i + |feeds| :: t[j] == feeds[j - i];
  }

  /** Any other line feed is kept, and so are the blanks behind it. */
  lemma CollapseKeepsFeed(blanks: string, rest: string)
    requires OnlyBlanks(blanks)
    requires rest == "" || rest[0] !in ['\n', ' ', '\t']
    ensures CollapseBlankLines("\n" + (blanks + rest)) == "\n" + (blanks + CollapseBlankLines(rest))
  {
    var t := "\n" + (blanks + rest);
    assert t[1..] == blanks + rest && t[1..1 + |blanks|] == blanks;
    SkipsBlanks(t, blanks);
    CollapseKeepsLine(blanks, rest);
  }

  lemma NotThreeFeeds(c: char, r: string)
    requires c != '\n' || |r| < 2 || r[0] != '\n' || r[1] != '\n'
    ensures !StartsWith([c] + r, "\n\n\n")
  {
    var t := [c] + r;
    if |t| >= 3 {
      assert t[..3][0] == c && t[..3][1] == r[0] && t[..3][2] == r[1];
    }
  }

  /** No three line feeds in a row are left, and a text that starts inside a line still does. */
  lemma {:induction false} CollapsedShape(t: string)
    ensures !Occurs("\n\n\n", CollapseBlankLines(t))
    ensures t == "" || t[0] != '\n' ==> CollapseBlankLines(t) == "" || CollapseBlankLines(t)[0] != '\n'
    decreases |t|
  {
    if t == "" {
    } else if t[0] == '\n' && SkipBlanks(t, 1) < |t| && t[SkipBlanks(t, 1)] == '\n' {
      var rest := t[SkipNewlines(t, SkipBlanks(t, 1))..];
      var r := CollapseBlankLines(rest);
      CollapsedShape(rest);
      NotThreeFeeds('\n', r);
      LongerLast("\n\n\n", '\n', r);
      NotThreeFeeds('\n', ['\n'] + r);
      LongerLast("\n\n\n", '\n', ['\n'] + r);
      assert "\n\n" + r == ['\n'] + (['\n'] + r);
    } else {
      CollapsedShape(t[1..]);
      NotThreeFeeds(t[0], CollapseBlankLines(t[1..]));
      LongerLast("\n\n\n", t[0], CollapseBlankLines(t[1..]));
    }
  }

  lemma {:induction false} CollapseHasNoReturn(t: string)
    requires '\r' !in t
    ensures '\r' !in CollapseBlankLines(t)
    decreases |t|
  {
    if t == "" {
    } else if t[0] == '\n' && SkipBlanks(t, 1) < |t| && t[SkipBlanks(t, 1)] == '\n' {
      CollapseHasNoReturn(t[SkipNewlines(t, SkipBlanks(t, 1))..]);
    } else {
      CollapseHasNoReturn(t[1..]);
    }
  }

  lemma Rejoin(t: string, n: nat)
    requires n <= |t|
    ensures t[..n] + t[n..] == t
  {
  }

  lemma StripCuts(t: string) returns (lead: string, tail: string)
    ensures t == lead + (Strip(t) + tail) && AllSpace(lead) && AllSpace(tail)
    ensures Strip(t) != "" ==> !IsSpace(Strip(t)[0]) && !IsSpace(Strip(t)[|Strip(t)| - 1])
  {
    hide LStrip, RStrip, IsSpace, AllSpace;
    var l := LStrip(t);
    var r := RStrip(l);
    assert Strip(t) == r;
    hide Strip;
    lead := t[..|t| - |l|];
    tail := l[|r|..];
    Rejoin(t, |t| - |l|);
    Rejoin(l, |r|);
  }

  lemma NormalizedHasNoReturn(text: string)
    ensures '\r' !in NormalizeNewlines(text)
  {
    var c := CollapseBlankLines(UnixLines(text));
    UnixHasNoReturn(text);
    CollapseHasNoReturn(UnixLines(text));
    hide UnixLines, CollapseBlankLines, Strip, IsSpace, AllSpace;
    var lead, tail := StripCuts(c);
    assert c == lead + (Strip(c) + tail);
    assert forall x | x in Strip(c) + tail :: x in c;
  }

  lemma NormalizedHasNoRun(text: string)
    ensures !Occurs("\n\n\n", NormalizeNewlines(text))
  {
    var c := CollapseBlankLines(UnixLines(text));
    CollapsedShape(UnixLines(text));
    hide UnixLines, CollapseBlankLines, Occurs, Strip, IsSpace, AllSpace;
    var lead, tail := StripCuts(c);
    OccursSuffix("\n\n\n", lead, Strip(c) + tail);
    OccursPrefix("\n\n\n", Strip(c), tail);
  }

  /** Normalised text has line feeds for line ends, no empty line beside another, and no space around it. */
  lemma NormalizedShape(text: string)
    ensures var r := NormalizeNewlines(text);
            && '\r' !in r && !Occurs("\n\n\n", r)
            && (r != "" ==> !IsSpace(r[0]) && !IsSpace(r[|r| - 1]))
  {
    NormalizedHasNoReturn(text);
    NormalizedHasNoRun(text);
    hide UnixLines, CollapseBlankLines, Occurs, Strip, IsSpace, AllSpace;
    var _, _ := StripCuts(CollapseBlankLines(UnixLines(text)));
  }

  lemma OccursSuffix(sep: string, a: string, b: string)
    requires !Occurs(sep, a + b)
    ensures !Occurs(sep, b)
  {
    forall k | 0 <= k <= |b| ensures !StartsWith(b[k..], sep) {
      assert (a + b)[|a| + k..] == b[k..];
    }
  }

  lemma OccursPrefix(sep: string, a: string, b: string)
    requires !Occurs(sep, a + b)
    ensures !Occurs(sep, a)
  {
    forall k | 0 <= k <= |a| ensures !StartsWith(a[k..], sep) {
      if |sep| <= |a| - k {
        assert (a + b)[k..] == a[k..] + b;
        StartsWithPrefix(a[k..], b, sep);
      }
    }
  }

  // ---------------------------------------------------------------- sentences

  predicate IsStop(c: char) {
    c == '.' || c == '!' || c == '?'
  }

  /** Splits at each whitespace run that directly follows `.`, `!` or `?`. */
  function SplitSentences(t: string, afterStop: bool): (parts: seq<string>)
    ensures parts != []
    decreases |t|
  {
    if t == "" then [""]
    else if afterStop && IsSpace(t[0]) then [""] + SplitSentences(LStrip(t[1..]), false)
    else
      var rest := SplitSentences(t[1..], IsStop(t[0]));
      [[t[0]] + rest[0]] + rest[1..]
  }

  lemma {:induction false} WordsOfSentences(t: string, afterStop: bool)
    ensures FlatWords(SplitSentences(t, afterStop)) == Words(t)
    ensures HeadOf(SplitSentences(t, afterStop)[0], t)
    decreases |t|
  {
    if t == "" {
    } else if afterStop && IsSpace(t[0]) {
      var rest := LStrip(t[1..]);
      WordsOfSentences(rest, false);
      WordsOfLStrip(t[1..]);
      assert ([""] + SplitSentences(rest, false))[1..] == SplitSentences(rest, false);
    } else {
      var stop := IsStop(t[0]);
      WordsOfSentences(t[1..], stop);
      assert t == [t[0]] + t[1..];
      ConsHead(t[0], t[1..], SplitSentences(t[1..], stop));
    }
  }

  /** No white space follows a stop inside the part. */
  predicate Unbroken(part: string) {
    forall k | 0 <= k < |part| - 1 :: part[k] in ['.', '!', '?'] ==> !IsSpace(part[k + 1])
  }

  /** The text is the parts, in order, with some white space between each two. */
  ghost predicate Separated(t: string, parts: seq<string>)
    requires parts != []
    decreases |parts|
  {
    && parts[0] <= t
    && if |parts| == 1 then t == parts[0]
       else exists e | |parts[0]| < e <= |t| :: AllSpace(t[|parts[0]|..e]) && Separated(t[e..], parts[1..])
  }

  /** What each part looks like: unbroken, behind a stop unless it is the last, no space in front. */
  predicate SentenceParts(parts: seq<string>, afterStop: bool)
    requires parts != []
  {
    && (forall i | 0 <= i < |parts| :: Unbroken(parts[i]))
    && (forall i | 0 <= i < |parts| - 1 ::
          if parts[i] == "" then i == 0 && afterStop else parts[i][|parts[i]| - 1] in ['.', '!', '?'])
    && (forall i | 0 < i < |parts| :: parts[i] != "" ==> !IsSpace(parts[i][0]))
    && (parts[0] != "" && afterStop ==> !IsSpace(parts[0][0]))
  }

  lemma SeparatedFirst(t: string, space: string, parts: seq<string>)
    requires parts != [] && space != "" && AllSpace(space) && Separated(t, parts)
    ensures Separated(space + t, [""] + parts)
  {
    var u := space + t;
    var e := |space|;
    assert u[0..e] == space && u[e..] == t;
    assert ([""] + parts)[1..] == parts;
  }

  lemma SeparatedCons(c: char, t: string, parts: seq<string>)
    requires parts != [] && Separated(t, parts)
    ensures Separated([c] + t, [[c] + parts[0]] + parts[1..])
  {
    var longer := [[c] + parts[0]] + parts[1..];
    var u := [c] + t;
    assert longer[1..] == parts[1..];
    if |parts| > 1 {
      var e :| |parts[0]| < e <= |t| && AllSpace(t[|parts[0]|..e]) && Separated(t[e..], parts[1..]);
      assert u[|parts[0]| + 1..e + 1] == t[|parts[0]|..e] && u[e + 1..] == t[e..];
    }
  }

  lemma UnbrokenCons(c: char, part: string)
    requires Unbroken(part) && (IsStop(c) && part != "" ==> !IsSpace(part[0]))
    ensures Unbroken([c] + part)
  {
    var p := [c] + part;
    forall k | 0 <= k < |p| - 1 && IsStop(p[k]) ensures !IsSpace(p[k + 1]) {
      if k > 0 {
        assert p[k] == part[k - 1] && p[k + 1] == part[k];
      }
    }
  }

  lemma SentencePartsCons(c: char, parts: seq<string>, afterStop: bool)
    requires parts != [] && SentenceParts(parts, IsStop(c)) && !(afterStop && IsSpace(c))
    ensures SentenceParts([[c] + parts[0]] + parts[1..], afterStop)
  {
    var longer := [[c] + parts[0]] + parts[1..];
    UnbrokenCons(c, parts[0]);
    hide Unbroken, IsSpace;
    forall i | 0 <= i < |longer| ensures Unbroken(longer[i]) {
      if i > 0 {
        assert longer[i] == parts[i];
      }
    }
    forall i | 0 <= i < |longer| - 1 ensures longer[i] != "" && IsStop(longer[i][|longer[i]| - 1]) {
      if i > 0 {
        assert longer[i] == parts[i];
      } else if parts[0] == "" {
        assert parts[0] == "" ==> IsStop(c);
      }
    }
  }

  lemma SentencePartsBreak(parts: seq<string>)
    requires parts != [] && SentenceParts(parts, false)
    requires parts[0] == "" || !IsSpace(parts[0][0])
    ensures SentenceParts([""] + parts, true)
  {
    var longer := [""] + parts;
    hide Unbroken, IsSpace;
    assert Unbroken("") by { UnbrokenEmpty(); }
    assert forall i | 0 < i < |longer| :: longer[i] == parts[i - 1];
  }

  lemma UnbrokenEmpty()
    ensures Unbroken("")
  {
  }

  /** The white space that a split takes out. */
  lemma BreakOf(t: string) returns (space: string)
    requires t != "" && IsSpace(t[0])
    ensures space != "" && AllSpace(space) && t == space + LStrip(t[1..])
  {
    hide LStrip, IsSpace, AllSpace;
    var more := t[1..];
    var run := more[..|more| - |LStrip(more)|];
    space := [t[0]] + run;
    AllSpaceCons(t[0], run);
    Rejoin(more, |run|);
    assert t == [t[0]] + (run + LStrip(more));
  }

  lemma AllSpaceCons(c: char, t: string)
    requires IsSpace(c) && AllSpace(t)
    ensures AllSpace([c] + t)
  {
    hide IsSpace;
  }

  /** Sentences end behind a stop, hold no stop before white space, and lose only white space. */
  lemma {:induction false} SentencesAre(t: string, afterStop: bool)
    ensures Separated(t, SplitSentences(t, afterStop))
    ensures SentenceParts(SplitSentences(t, afterStop), afterStop)
    decreases |t|
  {
    if t == "" {
      UnbrokenEmpty();
    } else if afterStop && IsSpace(t[0]) {
      var rest := LStrip(t[1..]);
      var parts := SplitSentences(rest, false);
      SentencesAre(rest, false);
      var space := BreakOf(t);
      assert parts[0] <= rest;
      hide Separated, SentenceParts, LStrip;
      SeparatedFirst(rest, space, parts);
      SentencePartsBreak(parts);
    } else {
      var parts := SplitSentences(t[1..], IsStop(t[0]));
      SentencesAre(t[1..], IsStop(t[0]));
      assert t == [t[0]] + t[1..];
      hide Separated, SentenceParts;
      SeparatedCons(t[0], t[1..], parts);
      SentencePartsCons(t[0], parts, afterStop);
    }
  }

  /** Each of two or more non-blank parts has strictly fewer words than the whole. */
  lemma {:induction false} PartHasFewerWords(parts: seq<string>, i: nat)
    requires NoBlank(parts) && i < |parts|
    ensures |Words(parts[i])| <= |FlatWords(parts)|
    ensures |parts| >= 2 ==> |Words(parts[i])| < |FlatWords(parts)|
  {
    assert parts == [parts[0]] + parts[1..];
    if i > 0 {
      PartHasFewerWords(parts[1..], i - 1);
    } else if |parts| >= 2 {
      PartHasFewerWords(parts[1..], 0);
      assert !Blank(parts[1]);
    }
  }

  /** The non-blank paragraphs of the normalised text. */
  function Paragraphs(text: string): seq<string> {
    DropBlank(SplitOn(NormalizeNewlines(text), "\n\n"))
  }

  /** Paragraphs hold words and no break; without a blank part they join back to the normalised text. */
  lemma ParagraphsAre(text: string)
    ensures NoBlank(Paragraphs(text))
    ensures forall p | p in Paragraphs(text) :: !Occurs("\n\n", p)
    ensures |Paragraphs(text)| == |SplitOn(NormalizeNewlines(text), "\n\n")| ==>
              Join("\n\n", Paragraphs(text)) == NormalizeNewlines(text)
  {
    var t := NormalizeNewlines(text);
    NoPartHoldsSeparator(t, "\n\n");
    SplitIsExact(t, "\n\n");
    DropsNone(SplitOn(t, "\n\n"));
    hide Join, SplitOn, DropBlank, NormalizeNewlines, Occurs;
  }

  lemma {:induction false} DropsNone(parts: seq<string>)
    ensures |DropBlank(parts)| <= |parts|
    ensures |DropBlank(parts)| == |parts| ==> DropBlank(parts) == parts
  {
    if parts != [] {
      DropsNone(parts[1..]);
    }
  }
}
