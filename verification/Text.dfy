/** Text as the chunker sees it: whitespace, words, joins and splits. */
module Text {

  /** Python's `str.isspace`, which `split()`, `strip()` and the regex class `\s` share. */
  predicate IsSpace(c: char) {
    || '\t' <= c <= '\r'
    || '\U{1C}' <= c <= ' '
    || c == '\U{85}' || c == '\U{A0}' || c == '\U{1680}'
    || '\U{2000}' <= c <= '\U{200A}'
    || c == '\U{2028}' || c == '\U{2029}' || c == '\U{202F}' || c == '\U{205F}' || c == '\U{3000}'
  }

  predicate AllSpace(t: string) {
    forall i | 0 <= i < |t| :: IsSpace(t[i])
  }

  /** A non-empty run of non-space characters. */
  predicate IsWord(w: string) {
    w != "" && forall i | 0 <= i < |w| :: !IsSpace(w[i])
  }

  /** `text.split()`: the maximal space-free runs, in order. */
  function Words(t: string): (ws: seq<string>)
    ensures t != "" && !IsSpace(t[0]) ==> ws != []
  {
    if t == "" then []
    else if IsSpace(t[0]) then Words(t[1..])
    else if |t| == 1 || IsSpace(t[1]) then [[t[0]]] + Words(t[1..])
    else
      var rest := Words(t[1..]);
      [[t[0]] + rest[0]] + rest[1..]
  }

  lemma {:induction false} WordsAreWords(t: string)
    ensures forall i | 0 <= i < |Words(t)| :: IsWord(Words(t)[i])
  {
    if t != "" {
      WordsAreWords(t[1..]);
    }
  }

  /** How one more leading character changes the words. */
  lemma WordsCons(c: char, t: string)
    ensures IsSpace(c) ==> Words([c] + t) == Words(t)
    ensures !IsSpace(c) && (t == "" || IsSpace(t[0])) ==> Words([c] + t) == [[c]] + Words(t)
    ensures !IsSpace(c) && t != "" && !IsSpace(t[0]) ==>
              Words([c] + t) == [[c] + Words(t)[0]] + Words(t)[1..]
  {
    assert ([c] + t)[1..] == t;
    if t != "" {
      assert ([c] + t)[1] == t[0];
    }
  }

  predicate Blank(t: string) {
    Words(t) == []
  }

  /** `sep.join(parts)`. */
  function Join(sep: string, parts: seq<string>): string {
    if parts == [] then ""
    else if |parts| == 1 then parts[0]
    else parts[0] + sep + Join(sep, parts[1..])
  }

  /** The words of all the parts, in order. */
  function FlatWords(parts: seq<string>): seq<string> {
    if parts == [] then [] else Words(parts[0]) + FlatWords(parts[1..])
  }

  lemma FlatWordsAppend(a: seq<string>, b: seq<string>)
    ensures FlatWords(a + b) == FlatWords(a) + FlatWords(b)
  {
    if a == [] {
      assert a + b == b;
    } else {
      assert (a + b)[1..] == a[1..] + b;
    }
  }

  lemma FlatWordsSingleton(t: string)
    ensures FlatWords([t]) == Words(t)
  {
  }

  lemma {:induction false} WordsAllSpace(t: string)
    requires AllSpace(t)
    ensures Words(t) == []
  {
    if t != "" {
      WordsAllSpace(t[1..]);
    }
  }

  /** Splitting distributes over a concatenation whose seam does not fall inside a word. */
  lemma {:induction false} WordsConcat(a: string, b: string)
    requires a == "" || b == "" || IsSpace(a[|a| - 1]) || IsSpace(b[0])
    ensures Words(a + b) == Words(a) + Words(b)
  {
    assert Words("") == [];
    hide Words, IsSpace;
    if a == "" {
      assert a + b == b;
    } else if b == "" {
      assert a + b == a;
    } else {
      WordsConcat(a[1..], b);
      assert a == [a[0]] + a[1..];
      assert a + b == [a[0]] + (a[1..] + b);
      ConsBeforeConcat(a[0], a[1..], b);
    }
  }

  lemma ConsBeforeConcat(c: char, a: string, b: string)
    requires a == "" ==> b == "" || IsSpace(c) || IsSpace(b[0])
    requires Words(a + b) == Words(a) + Words(b)
    ensures Words([c] + (a + b)) == Words([c] + a) + Words(b)
  {
    WordsCons(c, a);
    WordsCons(c, a + b);
    assert Words("") == [];
    hide Words, IsSpace;
    if a == "" {
      assert a + b == b;
    } else {
      assert (a + b)[0] == a[0];
      if IsSpace(c) {
      } else if IsSpace(a[0]) {
        assert [[c]] + Words(a) + Words(b) == [[c]] + (Words(a) + Words(b));
      } else {
        WordsOfNonSpace(a);
        ExtendFirst(c, Words(a), Words(b));
      }
    }
  }

  lemma WordsDropLeadingSpace(sep: string, t: string)
    requires AllSpace(sep)
    ensures Words(sep + t) == Words(t)
  {
    if sep != "" {
      WordsConcat(sep, t);
      WordsAllSpace(sep);
    } else {
      assert sep + t == t;
    }
  }

  /** Joining with a whitespace separator neither merges nor splits words. */
  lemma {:induction false} WordsOfJoin(sep: string, parts: seq<string>)
    requires sep != "" && AllSpace(sep)
    ensures Words(Join(sep, parts)) == FlatWords(parts)
  {
    if |parts| == 1 {
      assert parts == [parts[0]];
    } else if |parts| > 1 {
      var tail := Join(sep, parts[1..]);
      WordsOfJoin(sep, parts[1..]);
      assert parts[0] + sep + tail == parts[0] + (sep + tail);
      WordsConcat(parts[0], sep + tail);
      WordsDropLeadingSpace(sep, tail);
    }
  }

  lemma {:induction false} WordsOfWord(w: string)
    requires IsWord(w)
    ensures Words(w) == [w]
  {
    if |w| == 1 {
      assert Words(w[1..]) == [];
      assert w == [w[0]];
    } else {
      WordsOfWord(w[1..]);
      assert [w[0]] + w[1..] == w;
    }
  }

  lemma {:induction false} FlatWordsOfWords(ws: seq<string>)
    requires forall i | 0 <= i < |ws| :: IsWord(ws[i])
    ensures FlatWords(ws) == ws
  {
    if ws != [] {
      WordsOfWord(ws[0]);
      FlatWordsOfWords(ws[1..]);
    }
  }

  /** Two texts that stand for the same words, and start alike, stay so under a common first character. */
  predicate SameShape(a: string, b: string) {
    && Words(a) == Words(b)
    && (a == "" <==> b == "")
    && (a != "" ==> IsSpace(a[0]) == IsSpace(b[0]))
  }

  lemma ConsShape(c: char, a: string, b: string)
    requires SameShape(a, b)
    ensures SameShape([c] + a, [c] + b)
  {
    WordsCons(c, a);
    WordsCons(c, b);
  }

  /** `text.lstrip()` */
  function LStrip(t: string): (r: string)
    ensures |r| <= |t| && t[|t| - |r|..] == r && AllSpace(t[..|t| - |r|])
    ensures r != "" ==> !IsSpace(r[0])
  {
    if t != "" && IsSpace(t[0]) then LStrip(t[1..]) else t
  }

  /** `text.rstrip()` */
  function RStrip(t: string): (r: string)
    ensures r <= t && AllSpace(t[|r|..])
    ensures r != "" ==> !IsSpace(r[|r| - 1])
  {
    if t != "" && IsSpace(t[|t| - 1]) then
      var n := |t| - 1;
      var r := RStrip(t[..n]);
      assert t[|r|..] == t[..n][|r|..] + [t[n]];
      r
    else t
  }

  /** `text.strip()` */
  function Strip(t: string): string {
    RStrip(LStrip(t))
  }

  lemma {:induction false} WordsOfLStrip(t: string)
    ensures Words(LStrip(t)) == Words(t)
  {
    if t != "" && IsSpace(t[0]) {
      WordsOfLStrip(t[1..]);
    }
  }

  lemma {:induction false} WordsOfRStrip(t: string)
    ensures Words(RStrip(t)) == Words(t)
  {
    if t != "" && IsSpace(t[|t| - 1]) {
      var n := |t| - 1;
      WordsOfRStrip(t[..n]);
      assert t == t[..n] + [t[n]];
      WordsConcat(t[..n], [t[n]]);
      WordsAllSpace([t[n]]);
    }
  }

  lemma WordsOfStrip(t: string)
    ensures Words(Strip(t)) == Words(t)
  {
    WordsOfLStrip(t);
    WordsOfRStrip(LStrip(t));
  }

  /** The source tests `not text.strip()`; that is exactly having no words. */
  lemma StripEmptyIffBlank(t: string)
    ensures Strip(t) == "" <==> Blank(t)
  {
    WordsOfStrip(t);
    WordsOfLStrip(t);
    var l := LStrip(t);
    if Strip(t) != "" {
      assert Strip(t)[0] == l[0];
    }
  }

  predicate StartsWith(t: string, p: string) {
    |p| <= |t| && t[..|p|] == p
  }

  /** `text.split(sep)` for a non-empty literal separator, matched left to right. */
  function SplitOn(t: string, sep: string): (parts: seq<string>)
    requires sep != ""
    ensures parts != []
    decreases |t|
  {
    if t == "" then [""]
    else if StartsWith(t, sep) then [""] + SplitOn(t[|sep|..], sep)
    else
      var rest := SplitOn(t[1..], sep);
      [[t[0]] + rest[0]] + rest[1..]
  }

  /** `text.replace(old, new)` for a non-empty `old`, matched left to right. */
  function Replace(t: string, old_: string, new_: string): string
    requires old_ != ""
    decreases |t|
  {
    if t == "" then ""
    else if StartsWith(t, old_) then new_ + Replace(t[|old_|..], old_, new_)
    else [t[0]] + Replace(t[1..], old_, new_)
  }

  /** How a splitter's first part relates to the text it was cut from. */
  predicate HeadOf(h: string, t: string) {
    if h == "" then t == "" || IsSpace(t[0]) else t != "" && h[0] == t[0]
  }

  /** One unsplit character in front of a split keeps the words of the split. */
  lemma ConsHead(c: char, t: string, parts: seq<string>)
    requires parts != [] && HeadOf(parts[0], t) && FlatWords(parts) == Words(t)
    ensures FlatWords([[c] + parts[0]] + parts[1..]) == Words([c] + t)
    ensures HeadOf([c] + parts[0], [c] + t)
  {
    var h, rest := parts[0], FlatWords(parts[1..]);
    assert ([[c] + h] + parts[1..])[1..] == parts[1..];
    assert FlatWords([[c] + h] + parts[1..]) == Words([c] + h) + rest;
    ConsSplit(c, t, h, rest);
  }

  lemma WordsOfNonSpace(t: string)
    requires t != "" && !IsSpace(t[0])
    ensures Words(t) != []
  {
  }

  lemma ConsSplit(c: char, t: string, h: string, rest: seq<string>)
    requires HeadOf(h, t) && Words(h) + rest == Words(t)
    ensures Words([c] + h) + rest == Words([c] + t)
  {
    WordsCons(c, h);
    WordsCons(c, t);
    hide Words;
    if IsSpace(c) {
    } else if h == "" || IsSpace(h[0]) {
      assert [[c]] + Words(h) + rest == [[c]] + (Words(h) + rest);
    } else {
      WordsOfNonSpace(h);
      ExtendFirst(c, Words(h), rest);
    }
  }

  lemma ExtendFirst(c: char, a: seq<string>, b: seq<string>)
    requires a != []
    ensures [[c] + a[0]] + a[1..] + b == [[c] + (a + b)[0]] + (a + b)[1..]
  {
    assert (a + b)[1..] == a[1..] + b;
  }

  lemma {:induction false} WordsOfSplitOn(t: string, sep: string)
    requires sep != "" && AllSpace(sep)
    ensures FlatWords(SplitOn(t, sep)) == Words(t)
    ensures HeadOf(SplitOn(t, sep)[0], t)
    decreases |t|
  {
    if t == "" {
    } else if StartsWith(t, sep) {
      WordsOfSplitOn(t[|sep|..], sep);
      assert t == sep + t[|sep|..];
      WordsDropLeadingSpace(sep, t[|sep|..]);
      assert t[0] == sep[0];
      assert ([""] + SplitOn(t[|sep|..], sep))[1..] == SplitOn(t[|sep|..], sep);
    } else {
      WordsOfSplitOn(t[1..], sep);
      assert t == [t[0]] + t[1..];
      ConsHead(t[0], t[1..], SplitOn(t[1..], sep));
    }
  }

  lemma {:induction false} WordsOfReplace(t: string, old_: string, new_: string)
    requires old_ != "" && new_ != "" && AllSpace(old_) && AllSpace(new_)
    ensures SameShape(Replace(t, old_, new_), t)
    decreases |t|
  {
    if t == "" {
    } else if StartsWith(t, old_) {
      var rest := t[|old_|..];
      WordsOfReplace(rest, old_, new_);
      assert t == old_ + rest;
      assert t[0] == old_[0];
      WordsDropLeadingSpace(old_, rest);
      WordsDropLeadingSpace(new_, Replace(rest, old_, new_));
    } else {
      WordsOfReplace(t[1..], old_, new_);
      assert t == [t[0]] + t[1..];
      ConsShape(t[0], Replace(t[1..], old_, new_), t[1..]);
    }
  }

  // ---------------------------------------------------------------- what a split is

  predicate Occurs(sep: string, t: string) {
    exists k | 0 <= k <= |t| :: StartsWith(t[k..], sep)
  }

  /** A part that is cut off at the first place where the separator could begin. */
  predicate CutAtFirst(part: string, sep: string) {
    forall k | 0 <= k < |part| :: !StartsWith((part + sep)[k..], sep)
  }

  /** The cuts are at the leftmost separators, and none is left over. */
  predicate LeftmostCuts(parts: seq<string>, sep: string)
    requires parts != []
  {
    && (forall i | 0 <= i < |parts| - 1 :: CutAtFirst(parts[i], sep))
    && !Occurs(sep, parts[|parts| - 1])
  }

  lemma JoinCons(sep: string, p: string, rest: seq<string>)
    ensures Join(sep, [p] + rest) == if rest == [] then p else p + sep + Join(sep, rest)
  {
    assert ([p] + rest)[1..] == rest;
  }

  /** A longer first part makes the joined text longer by as much. */
  lemma JoinLonger(sep: string, c: char, parts: seq<string>)
    requires parts != []
    ensures Join(sep, [[c] + parts[0]] + parts[1..]) == [c] + Join(sep, parts)
  {
    JoinCons(sep, [c] + parts[0], parts[1..]);
    JoinCons(sep, parts[0], parts[1..]);
    assert parts == [parts[0]] + parts[1..];
    if parts[1..] != [] {
      assert [c] + parts[0] + sep + Join(sep, parts[1..]) == [c] + (parts[0] + sep + Join(sep, parts[1..]));
    }
  }

  lemma StartsWithPrefix(a: string, b: string, sep: string)
    requires |sep| <= |a|
    ensures StartsWith(a + b, sep) <==> StartsWith(a, sep)
  {
    assert (a + b)[..|sep|] == a[..|sep|];
  }

  lemma LongerCut(sep: string, c: char, part: string, tail: string)
    requires CutAtFirst(part, sep) && !StartsWith([c] + (part + sep + tail), sep)
    ensures CutAtFirst([c] + part, sep)
  {
    var p := [c] + part;
    forall k | 0 <= k < |p| ensures !StartsWith((p + sep)[k..], sep) {
      if k == 0 {
        assert (p + sep)[0..] == p + sep && [c] + (part + sep + tail) == (p + sep) + tail;
        StartsWithPrefix(p + sep, tail, sep);
      } else {
        assert (p + sep)[k..] == (part + sep)[k - 1..];
      }
    }
  }

  lemma LongerLast(sep: string, c: char, part: string)
    requires !Occurs(sep, part) && !StartsWith([c] + part, sep)
    ensures !Occurs(sep, [c] + part)
  {
    forall k | 0 <= k <= |part| + 1 ensures !StartsWith(([c] + part)[k..], sep) {
      if k == 0 {
        assert ([c] + part)[0..] == [c] + part;
      } else {
        assert ([c] + part)[k..] == part[k - 1..];
      }
    }
  }

  /** One more unsplit character keeps the cuts leftmost. */
  lemma LongerFirstPart(sep: string, c: char, parts: seq<string>, t: string)
    requires sep != "" && parts != [] && LeftmostCuts(parts, sep)
    requires Join(sep, parts) == t && !StartsWith([c] + t, sep)
    ensures LeftmostCuts([[c] + parts[0]] + parts[1..], sep)
  {
    var p, rest := parts[0], parts[1..];
    assert parts == [p] + rest;
    JoinCons(sep, p, rest);
    hide Join, StartsWith, Occurs, CutAtFirst;
    var longer := [[c] + p] + rest;
    if rest == [] {
      LongerLast(sep, c, p);
    } else {
      assert CutAtFirst(parts[0], sep);
      LongerCut(sep, c, p, Join(sep, rest));
      forall i | 0 <= i < |longer| - 1 ensures CutAtFirst(longer[i], sep) {
        if i > 0 {
          assert CutAtFirst(parts[i], sep);
        }
      }
      assert longer[|rest|] == rest[|rest| - 1] == parts[|rest|];
    }
  }

  lemma EmptyFirstPart(sep: string, rest: seq<string>)
    requires sep != "" && rest != [] && LeftmostCuts(rest, sep)
    ensures LeftmostCuts([""] + rest, sep) && Join(sep, [""] + rest) == sep + Join(sep, rest)
  {
    hide Occurs;
    JoinCons(sep, "", rest);
    assert "" + sep + Join(sep, rest) == sep + Join(sep, rest);
    var parts := [""] + rest;
    forall i | 0 <= i < |parts| - 1 ensures CutAtFirst(parts[i], sep) {
      if i > 0 {
        assert parts[i] == rest[i - 1];
      }
    }
  }

  lemma NothingToCut(sep: string)
    requires sep != ""
    ensures LeftmostCuts([""], sep) && Join(sep, [""]) == ""
  {
  }

  /** A split loses nothing and cuts exactly at the leftmost separators. */
  lemma {:induction false} SplitIsExact(t: string, sep: string)
    requires sep != ""
    ensures Join(sep, SplitOn(t, sep)) == t
    ensures LeftmostCuts(SplitOn(t, sep), sep)
    decreases |t|
  {
    hide LeftmostCuts, Join;
    if t == "" {
      NothingToCut(sep);
    } else if StartsWith(t, sep) {
      SplitIsExact(t[|sep|..], sep);
      EmptyFirstPart(sep, SplitOn(t[|sep|..], sep));
      assert t == sep + t[|sep|..];
    } else {
      SplitIsExact(t[1..], sep);
      assert t == [t[0]] + t[1..];
      JoinLonger(sep, t[0], SplitOn(t[1..], sep));
      LongerFirstPart(sep, t[0], SplitOn(t[1..], sep), t[1..]);
    }
  }

  /** So no part holds the separator any more. */
  lemma NoPartHoldsSeparator(t: string, sep: string)
    requires sep != ""
    ensures forall p | p in SplitOn(t, sep) :: !Occurs(sep, p)
  {
    SplitIsExact(t, sep);
    hide SplitOn;
    var parts := SplitOn(t, sep);
    forall i | 0 <= i < |parts| ensures !Occurs(sep, parts[i]) {
      if i < |parts| - 1 {
        CutHoldsNone(parts[i], sep);
      }
    }
  }

  lemma CutHoldsNone(part: string, sep: string)
    requires sep != "" && CutAtFirst(part, sep)
    ensures !Occurs(sep, part)
  {
    forall k | 0 <= k <= |part| ensures !StartsWith(part[k..], sep) {
      if k < |part| && |sep| <= |part| - k {
        assert (part + sep)[k..] == part[k..] + sep;
        StartsWithPrefix(part[k..], sep, sep);
      }
    }
  }

  /** Replacing is splitting and joining with something else. */
  lemma {:induction false} ReplaceIsSplitAndJoin(t: string, old_: string, new_: string)
    requires old_ != ""
    ensures Replace(t, old_, new_) == Join(new_, SplitOn(t, old_))
    decreases |t|
  {
    if t == "" {
    } else if StartsWith(t, old_) {
      ReplaceIsSplitAndJoin(t[|old_|..], old_, new_);
      JoinCons(new_, "", SplitOn(t[|old_|..], old_));
    } else {
      ReplaceIsSplitAndJoin(t[1..], old_, new_);
      JoinLonger(new_, t[0], SplitOn(t[1..], old_));
    }
  }

  /** `[p for p in parts if p.strip()]` */
  function DropBlank(parts: seq<string>): (r: seq<string>)
    ensures forall p | p in r :: !Blank(p) && p in parts
  {
    if parts == [] then []
    else if Blank(parts[0]) then DropBlank(parts[1..])
    else [parts[0]] + DropBlank(parts[1..])
  }

  lemma {:induction false} WordsOfDropBlank(parts: seq<string>)
    ensures FlatWords(DropBlank(parts)) == FlatWords(parts)
  {
    if parts != [] {
      WordsOfDropBlank(parts[1..]);
    }
  }
}
